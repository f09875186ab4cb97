/** The life of a broadcast, from its appending to its tenth sending. */
module BroadcastLife {
  import opened Common
  import opened Broadcasts

  type Key = (string, Option<string>, bool)

  /** The queue, what was ever appended to it, and what was packed in consuming pushes. */
  datatype World = World(queue: seq<Broadcast>, appended: multiset<Key>, packed: multiset<Key>)

  datatype Step =
    | Append(b: Broadcast)
    | Push(sorted: seq<Broadcast>, groups: set<string>, consume: bool)

  /** The broadcasts that go into the datagrams of a push. */
  function Chosen(queue: seq<Broadcast>, groups: set<string>): seq<Broadcast> {
    if queue == [] then []
    else
      var last := queue[|queue| - 1];
      Chosen(queue[..|queue| - 1], groups) + if Eligible(last, groups) then [last] else []
  }

  function Keys(queue: seq<Broadcast>): multiset<Key> {
    if queue == [] then multiset{} else Keys(queue[..|queue| - 1]) + multiset{queue[|queue| - 1].Key()}
  }

  ghost predicate Next(w: World, step: Step, w': World) {
    match step
    case Append(b) =>
      b.send == 0 && w' == World(w.queue + [b], w.appended + multiset{b.Key()}, w.packed)
    case Push(sorted, groups, consume) =>
      && multiset(sorted) == multiset(w.queue) && w'.appended == w.appended
      && w'.queue == AfterPush(sorted, groups, consume)
      && w'.packed == w.packed + if consume then Keys(Chosen(sorted, groups)) else multiset{}
  }

  ghost predicate IsRun(ws: seq<World>, steps: seq<Step>) {
    && |ws| == |steps| + 1 && ws[0] == World([], multiset{}, multiset{})
    && forall i :: 0 <= i < |steps| ==> Next(ws[i], steps[i], ws[i + 1])
  }

  /** What is chosen is what is packed: the messages of a push are those of the chosen broadcasts, in order. */
  lemma {:induction false} ChosenArePacked(queue: seq<Broadcast>, groups: set<string>)
    ensures |Chosen(queue, groups)| == |Selected(queue, groups)|
    ensures forall i :: 0 <= i < |Chosen(queue, groups)| ==> Selected(queue, groups)[i] == Chosen(queue, groups)[i].msg
  {
    if queue != [] {
      ChosenArePacked(queue[..|queue| - 1], groups);
    }
  }

  /** A push takes the broadcasts without a group, and those of the groups of its target, and no others. */
  lemma {:induction false} ChosenAreForTheTarget(queue: seq<Broadcast>, groups: set<string>)
    ensures forall b :: b in Chosen(queue, groups) <==> b in queue && (b.group.None? || b.group.value in groups)
  {
    if queue != [] {
      var front, last := queue[..|queue| - 1], queue[|queue| - 1];
      ChosenAreForTheTarget(front, groups);
      assert queue == front + [last];
    }
  }

  /** In the order of the queue. */
  lemma {:induction false} ChosenAppend(xs: seq<Broadcast>, ys: seq<Broadcast>, groups: set<string>)
    ensures Chosen(xs + ys, groups) == Chosen(xs, groups) + Chosen(ys, groups)
    decreases |ys|
  {
    if ys == [] {
      assert xs + ys == xs;
    } else {
      var n := |ys| - 1;
      assert (xs + ys)[..|xs + ys| - 1] == xs + ys[..n];
      ChosenAppend(xs, ys[..n], groups);
    }
  }

  // ---------------------------------------------------------------- how many sendings are owed

  function Owes(b: Broadcast, key: Key): int {
    if b.Key() == key then KGOSSIP - b.send else 0
  }

  /** The sendings that the waiting broadcasts of a key still have before them. */
  function Owed(queue: seq<Broadcast>, key: Key): int {
    if queue == [] then 0 else Owed(queue[..|queue| - 1], key) + Owes(queue[|queue| - 1], key)
  }

  lemma OwedPush(queue: seq<Broadcast>, b: Broadcast, key: Key)
    ensures Owed(queue + [b], key) == Owed(queue, key) + Owes(b, key)
  {
    assert (queue + [b])[..|queue|] == queue;
  }

  lemma {:induction false} OwedInsert(xs: seq<Broadcast>, b: Broadcast, ys: seq<Broadcast>, key: Key)
    ensures Owed(xs + ([b] + ys), key) == Owed(xs + ys, key) + Owes(b, key)
    decreases |ys|
  {
    hide Owed, Owes;
    if ys == [] {
      assert xs + ([b] + ys) == xs + [b] && xs + ys == xs;
      OwedPush(xs, b, key);
    } else {
      var front, last := ys[..|ys| - 1], ys[|ys| - 1];
      assert ys == front + [last];
      OwedInsert(xs, b, front, key);
      assert xs + ([b] + ys) == (xs + ([b] + front)) + [last] && xs + ys == (xs + front) + [last];
      OwedPush(xs + ([b] + front), last, key);
      OwedPush(xs + front, last, key);
    }
  }

  lemma FindIn(ys: seq<Broadcast>, b: Broadcast) returns (i: nat)
    requires b in multiset(ys)
    ensures i < |ys| && ys[i] == b && ys == ys[..i] + ([b] + ys[i + 1..])
    ensures multiset(ys[..i] + ys[i + 1..]) == multiset(ys) - multiset{b}
  {
    i :| 0 <= i < |ys| && ys[i] == b;
    assert ys == ys[..i] + ([b] + ys[i + 1..]);
    TakeOut(ys[..i], b, ys[i + 1..]);
  }

  /** Sorting does not change what is owed. */
  lemma {:induction false} OwedPermuted(xs: seq<Broadcast>, ys: seq<Broadcast>, key: Key)
    requires multiset(xs) == multiset(ys)
    ensures Owed(xs, key) == Owed(ys, key)
    decreases |xs|
  {
    assert |xs| == |multiset(xs)| == |multiset(ys)| == |ys|;
    if xs != [] {
      hide Owed, Owes;
      var front, b := xs[..|xs| - 1], xs[|xs| - 1];
      assert xs == front + [b];
      var i := FindIn(ys, b);
      OwedPermuted(front, ys[..i] + ys[i + 1..], key);
      OwedPush(front, b, key);
      OwedInsert(ys[..i], b, ys[i + 1..], key);
    }
  }

  lemma ChosenPush(queue: seq<Broadcast>, b: Broadcast, groups: set<string>)
    ensures Chosen(queue + [b], groups)
         == if Eligible(b, groups) then Chosen(queue, groups) + [b] else Chosen(queue, groups)
  {
    assert (queue + [b])[..|queue|] == queue;
  }

  lemma KeysPush(queue: seq<Broadcast>, b: Broadcast)
    ensures Keys(queue + [b]) == Keys(queue) + multiset{b.Key()}
  {
    assert (queue + [b])[..|queue|] == queue;
  }

  lemma AlivePush(queue: seq<Broadcast>, b: Broadcast, groups: set<string>, consume: bool)
    ensures Alive(queue + [b], groups, consume)
         == if Expired(b, groups, consume) then Alive(queue, groups, consume) else Alive(queue, groups, consume) + [b]
  {
    assert (queue + [b])[..|queue|] == queue;
  }

  lemma BumpedPush(queue: seq<Broadcast>, b: Broadcast, groups: set<string>, consume: bool)
    ensures Bumped(queue + [b], groups, consume) == Bumped(queue, groups, consume) + [Bump(b, groups, consume)]
  {
  }

  lemma OwesOneLess(b: Broadcast, groups: set<string>, key: Key)
    ensures Owes(Bump(b, groups, true), key) == Owes(b, key) - if Eligible(b, groups) then multiset{b.Key()}[key] else 0
  {
  }

  /** Every chosen broadcast owes one sending less. */
  lemma {:induction false} OwedBumped(queue: seq<Broadcast>, groups: set<string>, key: Key)
    ensures Owed(Bumped(queue, groups, true), key) == Owed(queue, key) - Keys(Chosen(queue, groups))[key]
    decreases |queue|
  {
    if queue != [] {
      var front, b := queue[..|queue| - 1], queue[|queue| - 1];
      assert queue == front + [b];
      hide *;
      OwedBumped(front, groups, key);
      BumpedPush(front, b, groups, true);
      OwedPush(Bumped(front, groups, true), Bump(b, groups, true), key);
      OwedPush(front, b, key);
      OwesOneLess(b, groups, key);
      ChosenPush(front, b, groups);
      KeysPush(Chosen(front, groups), b);
    } else {
      assert Bumped(queue, groups, true) == [];
    }
  }

  lemma ExpiredOwesNothing(b: Broadcast, groups: set<string>, consume: bool, key: Key)
    requires b.send <= KGOSSIP
    ensures Expired(b, groups, consume) ==> Owes(b, key) == 0
  {
  }

  /** Dropping broadcasts that were sent ten times changes nothing of what is owed. */
  lemma {:induction false} OwedAlive(queue: seq<Broadcast>, groups: set<string>, consume: bool, key: Key)
    requires forall i :: 0 <= i < |queue| ==> queue[i].send <= KGOSSIP
    ensures Owed(Alive(queue, groups, consume), key) == Owed(queue, key)
    decreases |queue|
  {
    if queue != [] {
      var front, b := queue[..|queue| - 1], queue[|queue| - 1];
      ExpiredOwesNothing(b, groups, consume, key);
      assert queue == front + [b] && forall i :: 0 <= i < |front| ==> front[i] == queue[i];
      hide Owed, Alive, Owes, Expired;
      OwedAlive(front, groups, consume, key);
      AlivePush(front, b, groups, consume);
      OwedPush(Alive(front, groups, consume), b, key);
      OwedPush(front, b, key);
    }
  }

  lemma {:induction false} OwedPositive(queue: seq<Broadcast>, key: Key)
    requires forall i :: 0 <= i < |queue| ==> queue[i].send < KGOSSIP
    ensures Owed(queue, key) >= 0
    ensures Owed(queue, key) == 0 <==> forall i :: 0 <= i < |queue| ==> queue[i].Key() != key
    decreases |queue|
  {
    if queue != [] {
      OwedPositive(queue[..|queue| - 1], key);
    }
  }

  // ---------------------------------------------------------------- the invariant

  ghost predicate Young(queue: seq<Broadcast>) {
    forall i :: 0 <= i < |queue| ==> queue[i].send < KGOSSIP
  }

  ghost predicate Balanced(w: World, key: Key) {
    w.packed[key] + Owed(w.queue, key) == KGOSSIP * w.appended[key]
  }

  ghost predicate Inv(w: World) {
    Young(w.queue) && forall key :: Balanced(w, key)
  }

  lemma YoungPermuted(xs: seq<Broadcast>, ys: seq<Broadcast>)
    requires multiset(xs) == multiset(ys) && Young(ys)
    ensures Young(xs)
  {
    forall i | 0 <= i < |xs| ensures xs[i].send < KGOSSIP {
      assert xs[i] in multiset(ys);
    }
  }

  lemma {:induction false} YoungAlive(queue: seq<Broadcast>, groups: set<string>, consume: bool)
    requires forall i :: 0 <= i < |queue| ==> queue[i].send < KGOSSIP || Expired(queue[i], groups, consume)
    ensures Young(Alive(queue, groups, consume))
    decreases |queue|
  {
    if queue != [] {
      YoungAlive(queue[..|queue| - 1], groups, consume);
    }
  }

  lemma PushKeeps(w: World, sorted: seq<Broadcast>, groups: set<string>, consume: bool, w': World)
    requires Inv(w) && Next(w, Push(sorted, groups, consume), w')
    ensures Inv(w')
  {
    hide Owed, Keys, Chosen, Alive;
    YoungPermuted(sorted, w.queue);
    var bumped := Bumped(sorted, groups, consume);
    YoungAlive(bumped, groups, consume);
    forall key ensures Balanced(w', key) {
      assert Balanced(w, key);
      OwedPermuted(sorted, w.queue, key);
      OwedAlive(bumped, groups, consume, key);
      if consume {
        OwedBumped(sorted, groups, key);
      } else {
        assert bumped == sorted;
      }
    }
  }

  lemma AppendKeeps(w: World, b: Broadcast, w': World)
    requires Inv(w) && Next(w, Append(b), w')
    ensures Inv(w')
  {
    hide Owed;
    forall key ensures Balanced(w', key) {
      assert Balanced(w, key);
      OwedPush(w.queue, b, key);
    }
  }

  lemma {:induction false} InvAlong(ws: seq<World>, steps: seq<Step>, n: nat)
    requires IsRun(ws, steps) && n <= |steps|
    ensures Inv(ws[n])
  {
    if n > 0 {
      InvAlong(ws, steps, n - 1);
      assert Next(ws[n - 1], steps[n - 1], ws[n]);
      hide Inv, Next;
      match steps[n - 1]
      case Append(b) => AppendKeeps(ws[n - 1], b, ws[n]);
      case Push(sorted, groups, consume) => PushKeeps(ws[n - 1], sorted, groups, consume, ws[n]);
    }
  }

  // ---------------------------------------------------------------- what follows

  /** Between pushes every waiting broadcast was sent fewer than ten times; no key was ever packed more than ten
      times for each time it was appended, and it was packed that often exactly when none of it waits any more. */
  lemma EachIsSentTenTimes(ws: seq<World>, steps: seq<Step>, n: nat, key: Key)
    requires IsRun(ws, steps) && n <= |steps|
    ensures forall b :: b in ws[n].queue ==> b.send < 10
    ensures ws[n].packed[key] <= 10 * ws[n].appended[key]
    ensures ws[n].packed[key] == 10 * ws[n].appended[key] <==> forall b :: b in ws[n].queue ==> b.Key() != key
  {
    InvAlong(ws, steps, n);
    var w := ws[n];
    assert Balanced(w, key);
    hide Owed;
    OwedPositive(w.queue, key);
    if forall b :: b in w.queue ==> b.Key() != key {
      assert forall i :: 0 <= i < |w.queue| ==> w.queue[i] in w.queue;
    }
  }

  lemma {:induction false} AliveAreNotExpired(queue: seq<Broadcast>, groups: set<string>, consume: bool)
    ensures forall b :: b in Alive(queue, groups, consume) ==> !Expired(b, groups, consume)
    decreases |queue|
  {
    if queue != [] {
      AliveAreNotExpired(queue[..|queue| - 1], groups, consume);
    }
  }

  lemma {:induction false} AliveAndDead(queue: seq<Broadcast>, groups: set<string>, consume: bool)
    ensures multiset(Alive(queue, groups, consume)) + multiset(Dead(queue, groups, consume)) == multiset(queue)
    decreases |queue|
  {
    if queue != [] {
      var front, b := queue[..|queue| - 1], queue[|queue| - 1];
      assert queue == front + [b];
      hide *;
      AliveAndDead(front, groups, consume);
      AlivePush(front, b, groups, consume);
      DeadPush(front, b, groups, consume);
    }
  }

  /** A push takes out the broadcasts it has sent for the tenth time and nothing else. */
  lemma OnlyTheExpiredGo(queue: seq<Broadcast>, groups: set<string>, consume: bool)
    ensures multiset(Alive(queue, groups, consume)) + multiset(Dead(queue, groups, consume)) == multiset(queue)
    ensures forall b :: b in Dead(queue, groups, consume) ==> Expired(b, groups, consume)
    ensures forall b :: b in Alive(queue, groups, consume) ==> !Expired(b, groups, consume)
  {
    hide *;
    AliveAndDead(queue, groups, consume);
    AliveAreNotExpired(queue, groups, consume);
    DeadAreInside(queue, groups, consume);
  }

  /** Broadcasts of the group (or without one, for None) were sent at least `age` times. */
  ghost predicate Aged(queue: seq<Broadcast>, group: Option<string>, age: nat) {
    forall b :: b in queue && b.group == group ==> b.send >= age
  }

  /** A consuming push to a node that gets the broadcasts of the group. */
  predicate Serves(step: Step, group: Option<string>) {
    step.Push? && step.consume && (group.None? || group.value in step.groups)
  }

  lemma BumpedAges(queue: seq<Broadcast>, groups: set<string>, group: Option<string>, age: nat)
    requires (group.None? || group.value in groups) && Aged(queue, group, age)
    ensures Aged(Bumped(queue, groups, true), group, age + 1)
  {
    var bumped := Bumped(queue, groups, true);
    forall b | b in bumped && b.group == group ensures b.send >= age + 1 {
      var i :| 0 <= i < |bumped| && bumped[i] == b;
      assert queue[i] in queue;
    }
  }

  lemma AgedWithin(xs: seq<Broadcast>, ys: seq<Broadcast>, group: Option<string>, age: nat)
    requires multiset(xs) <= multiset(ys) && Aged(ys, group, age)
    ensures Aged(xs, group, age)
  {
    forall b | b in xs ensures b in ys {
      assert b in multiset(xs) && b in multiset(ys);
    }
  }

  lemma ServingAges(w: World, step: Step, w': World, group: Option<string>, age: nat)
    requires Next(w, step, w') && Serves(step, group) && Aged(w.queue, group, age)
    ensures Aged(w'.queue, group, age + 1)
  {
    hide Alive, Aged, Bumped;
    var bumped := Bumped(step.sorted, step.groups, true);
    AgedWithin(step.sorted, w.queue, group, age);
    BumpedAges(step.sorted, step.groups, group, age);
    OnlyTheExpiredGo(bumped, step.groups, true);
    AgedWithin(w'.queue, bumped, group, age + 1);
  }

  lemma BumpedNoYounger(queue: seq<Broadcast>, groups: set<string>, consume: bool, group: Option<string>, age: nat)
    requires Aged(queue, group, age)
    ensures Aged(Bumped(queue, groups, consume), group, age)
  {
    var bumped := Bumped(queue, groups, consume);
    forall b | b in bumped && b.group == group ensures b.send >= age {
      var i :| 0 <= i < |bumped| && bumped[i] == b;
      assert queue[i] in queue;
    }
  }

  /** Whatever else happens to the queue, short of another broadcast of the group, makes none of them younger. */
  lemma OthersKeepAge(w: World, step: Step, w': World, group: Option<string>, age: nat)
    requires Next(w, step, w') && (step.Append? ==> step.b.group != group) && Aged(w.queue, group, age)
    ensures Aged(w'.queue, group, age)
  {
    if step.Push? {
      hide Alive, Aged, Bumped;
      var bumped := Bumped(step.sorted, step.groups, step.consume);
      AgedWithin(step.sorted, w.queue, group, age);
      BumpedNoYounger(step.sorted, step.groups, step.consume, group, age);
      OnlyTheExpiredGo(bumped, step.groups, step.consume);
      AgedWithin(w'.queue, bumped, group, age);
    }
  }

  /** How many of the steps serve the group. */
  function Served(steps: seq<Step>, group: Option<string>): nat {
    if steps == [] then 0
    else Served(steps[..|steps| - 1], group) + if Serves(steps[|steps| - 1], group) then 1 else 0
  }

  lemma ServedPush(steps: seq<Step>, from: nat, end: nat, group: Option<string>)
    requires from < end <= |steps|
    ensures Served(steps[from..end], group)
         == Served(steps[from..end - 1], group) + if Serves(steps[end - 1], group) then 1 else 0
  {
    assert steps[from..end][..end - from - 1] == steps[from..end - 1];
  }

  lemma {:induction false} ServingAgesAlong(ws: seq<World>, steps: seq<Step>, from: nat, end: nat,
                                            group: Option<string>)
    requires IsRun(ws, steps) && from <= end <= |steps|
    requires forall i :: from <= i < end && steps[i].Append? ==> steps[i].b.group != group
    ensures Aged(ws[end].queue, group, Served(steps[from..end], group))
    decreases end
  {
    if from != end {
      ServingAgesAlong(ws, steps, from, end - 1, group);
      ServedPush(steps, from, end, group);
      var n := end - 1;
      assert Next(ws[n], steps[n], ws[n + 1]);
      var age := Served(steps[from..n], group);
      hide Next, Serves, Aged, IsRun, Served;
      if Serves(steps[n], group) {
        ServingAges(ws[n], steps[n], ws[end], group, age);
      } else {
        OthersKeepAge(ws[n], steps[n], ws[end], group, age);
      }
    } else {
      assert steps[from..end] == [];
    }
  }

  /** Ten consuming pushes that serve a group, anywhere in a stretch in which nobody appends another broadcast of
      the group, empty the queue of its broadcasts, whatever other pushes and appends come in between. */
  lemma TenPushesDrain(ws: seq<World>, steps: seq<Step>, from: nat, end: nat, group: Option<string>)
    requires IsRun(ws, steps) && from <= end <= |steps| && Served(steps[from..end], group) >= 10
    requires forall i :: from <= i < end && steps[i].Append? ==> steps[i].b.group != group
    ensures forall b :: b in ws[end].queue ==> b.group != group
  {
    ServingAgesAlong(ws, steps, from, end, group);
    InvAlong(ws, steps, end);
  }
}
