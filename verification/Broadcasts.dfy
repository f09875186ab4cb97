/** The queue of broadcasts (opsbro/broadcast.py) and how pushes drain it (__do_gossip_push in opsbro/gossip.py). */
module Broadcasts {
  import opened Common
  import opened Packing

  /** A broadcast is dropped once it has been sent this often. */
  const KGOSSIP := 10

  datatype Broadcast = Broadcast(msg: string, group: Option<string>, prioritary: bool, send: nat) {
    /** What stays the same while the broadcast waits. */
    function Key(): (string, Option<string>, bool) {
      (msg, group, prioritary)
    }
  }

  // ---------------------------------------------------------------- one push

  predicate Eligible(b: Broadcast, groups: set<string>) {
    b.group.None? || b.group.value in groups
  }

  function Bump(b: Broadcast, groups: set<string>, consume: bool): Broadcast {
    if consume && Eligible(b, groups) then b.(send := b.send + 1) else b
  }

  /** A broadcast that was just sent for the last time. */
  predicate Expired(b: Broadcast, groups: set<string>, consume: bool) {
    consume && Eligible(b, groups) && b.send >= KGOSSIP
  }

  function Bumped(queue: seq<Broadcast>, groups: set<string>, consume: bool): (r: seq<Broadcast>)
    ensures |r| == |queue| && forall i :: 0 <= i < |queue| ==> r[i] == Bump(queue[i], groups, consume)
  {
    seq(|queue|, i requires 0 <= i < |queue| => Bump(queue[i], groups, consume))
  }

  /** The messages for a node of these groups, in the order of the queue. */
  function Selected(queue: seq<Broadcast>, groups: set<string>): seq<string> {
    if queue == [] then []
    else
      var last := queue[|queue| - 1];
      Selected(queue[..|queue| - 1], groups) + if Eligible(last, groups) then [last.msg] else []
  }

  function Dead(queue: seq<Broadcast>, groups: set<string>, consume: bool): seq<Broadcast> {
    if queue == [] then []
    else
      var last := queue[|queue| - 1];
      Dead(queue[..|queue| - 1], groups, consume) + if Expired(last, groups, consume) then [last] else []
  }

  function Alive(queue: seq<Broadcast>, groups: set<string>, consume: bool): seq<Broadcast> {
    if queue == [] then []
    else
      var last := queue[|queue| - 1];
      Alive(queue[..|queue| - 1], groups, consume) + if Expired(last, groups, consume) then [] else [last]
  }

  /** The queue after a push that found it in the order `queue`. */
  function AfterPush(queue: seq<Broadcast>, groups: set<string>, consume: bool): seq<Broadcast> {
    Alive(Bumped(queue, groups, consume), groups, consume)
  }

  // ---------------------------------------------------------------- list.remove

  /** list.remove: take out the first entry equal to `b`. */
  function Remove(queue: seq<Broadcast>, b: Broadcast): seq<Broadcast>
    requires b in queue
  {
    if queue[0] == b then queue[1..] else [queue[0]] + Remove(queue[1..], b)
  }

  lemma {:induction false} RemoveAt(queue: seq<Broadcast>, b: Broadcast) returns (i: nat)
    requires b in queue
    ensures i < |queue| && queue[i] == b && Remove(queue, b) == queue[..i] + queue[i + 1..]
  {
    if queue[0] == b {
      i := 0;
    } else {
      var k := RemoveAt(queue[1..], b);
      i := k + 1;
    }
  }

  lemma {:induction false} SplitAppend(xs: seq<Broadcast>, ys: seq<Broadcast>, groups: set<string>, consume: bool)
    ensures Alive(xs + ys, groups, consume) == Alive(xs, groups, consume) + Alive(ys, groups, consume)
    ensures Dead(xs + ys, groups, consume) == Dead(xs, groups, consume) + Dead(ys, groups, consume)
    decreases |ys|
  {
    if ys == [] {
      assert xs + ys == xs;
    } else {
      var n := |ys| - 1;
      assert (xs + ys)[..|xs + ys| - 1] == xs + ys[..n];
      SplitAppend(xs, ys[..n], groups, consume);
    }
  }

  lemma SplitOne(b: Broadcast, groups: set<string>, consume: bool)
    ensures Alive([b], groups, consume) == if Expired(b, groups, consume) then [] else [b]
    ensures Dead([b], groups, consume) == if Expired(b, groups, consume) then [b] else []
  {
    assert [b][..0] == [];
  }

  lemma TakeOut<T>(xs: seq<T>, b: T, ys: seq<T>)
    ensures multiset(xs + ys) == multiset(xs + ([b] + ys)) - multiset{b}
    ensures xs + ([] + ys) == xs + ys
  {
  }

  /** Removing an expired broadcast leaves the living ones, in their order, and one expired one less. */
  lemma RemoveDead(queue: seq<Broadcast>, b: Broadcast, groups: set<string>, consume: bool)
    requires b in queue && Expired(b, groups, consume)
    ensures Alive(Remove(queue, b), groups, consume) == Alive(queue, groups, consume)
    ensures multiset(Dead(Remove(queue, b), groups, consume)) == multiset(Dead(queue, groups, consume)) - multiset{b}
  {
    var i := RemoveAt(queue, b);
    var xs, ys := queue[..i], queue[i + 1..];
    assert queue == xs + ([b] + ys);
    hide *;
    SplitAppend(xs, [b] + ys, groups, consume);
    SplitAppend([b], ys, groups, consume);
    SplitAppend(xs, ys, groups, consume);
    SplitOne(b, groups, consume);
    TakeOut(Alive(xs, groups, consume), b, Alive(ys, groups, consume));
    TakeOut(Dead(xs, groups, consume), b, Dead(ys, groups, consume));
  }

  lemma {:induction false} DeadAreInside(queue: seq<Broadcast>, groups: set<string>, consume: bool)
    ensures forall b :: b in Dead(queue, groups, consume) ==> b in queue && Expired(b, groups, consume)
    ensures Dead(queue, groups, consume) == [] ==> Alive(queue, groups, consume) == queue
  {
    if queue != [] {
      DeadAreInside(queue[..|queue| - 1], groups, consume);
    }
  }

  // ---------------------------------------------------------------- the object

  class Broadcaster {
    var broadcasts: seq<Broadcast>

    constructor ()
      ensures broadcasts == []
    {
      broadcasts := [];
    }

    method Append(b: Broadcast)
      modifies this
      ensures broadcasts == old(broadcasts) + [b]
    {
      broadcasts := broadcasts + [b];
    }

    /** Fill datagrams for a node of `groups`. `sorted` is the queue as sorting leaves it; which order that is
        does not matter here. */
    method GossipPush(sorted: seq<Broadcast>, groups: set<string>, consume: bool, dumps: Dumps)
      returns (messages: seq<string>)
      requires multiset(sorted) == multiset(broadcasts) && NeverEmpty(dumps)
      modifies this
      ensures messages == Texts(Packets(Selected(sorted, groups), dumps), dumps)
      ensures broadcasts == AfterPush(sorted, groups, consume)
    {
      hide *;
      broadcasts := sorted;
      messages := [];
      var message := "";
      var toDel: seq<Broadcast> := [];
      var stack: seq<string> := [];
      ghost var packets: seq<seq<string>> := [];
      NothingYet(sorted, groups, consume, dumps);
      for i := 0 to |sorted|
        invariant Counted(sorted, i, broadcasts, toDel, groups, consume)
        invariant packets == Packets(Selected(sorted[..i], groups), dumps)
        invariant Stacked(packets, messages, stack, message, dumps)
      {
        CountOne(sorted, i, broadcasts, toDel, groups, consume);
        var b := broadcasts[i];
        SelectedPush(sorted, i, groups);
        if b.group.Some? && b.group.value !in groups {
          continue;
        }
        if consume {
          b := b.(send := b.send + 1);
          broadcasts := broadcasts[i := b];
          if b.send >= KGOSSIP {
            toDel := toDel + [b];
          }
        }
        PacketsPush(Selected(sorted[..i], groups), b.msg, dumps);
        messages, stack, message := Stack(b.msg, messages, stack, message, dumps, packets);
        packets := Push(packets, b.msg, dumps);
      }
      AllCounted(sorted, broadcasts, toDel, groups, consume);
      assert sorted[..|sorted|] == sorted;
      LastMessage(packets, messages, stack, message, dumps);
      if message != "" {
        messages := messages + [message];
      }
      if |messages| == 0 {
        NothingDies(sorted, groups, consume, dumps);
        return;
      }
      RemoveAll(toDel, groups, consume);
    }

    /** Add a message to the open datagram, or close that one and open another. */
    method Stack(bmsg: string, messages: seq<string>, stack: seq<string>, message: string, dumps: Dumps,
                 ghost packets: seq<seq<string>>)
      returns (messages': seq<string>, stack': seq<string>, message': string)
      requires Stacked(packets, messages, stack, message, dumps)
      ensures Stacked(Push(packets, bmsg, dumps), messages', stack', message', dumps)
    {
      hide *;
      PushStacked(packets, messages, stack, message, bmsg, dumps);
      messages', stack', message' := messages, stack + [bmsg], dumps(stack + [bmsg]);
      if |message'| > 1400 && |stack'| != 1 {
        messages' := messages + [message];
        stack' := [bmsg];
        message' := dumps(stack');
      }
    }

    /** Take out the broadcasts that were sent often enough. */
    method RemoveAll(toDel: seq<Broadcast>, ghost groups: set<string>, ghost consume: bool)
      requires toDel == Dead(broadcasts, groups, consume)
      modifies this
      ensures broadcasts == Alive(old(broadcasts), groups, consume)
    {
      hide *;
      ghost var all := broadcasts;
      DeadAreInside(all, groups, consume);
      assert toDel[0..] == toDel;
      for i := 0 to |toDel|
        invariant Alive(broadcasts, groups, consume) == Alive(all, groups, consume)
        invariant multiset(Dead(broadcasts, groups, consume)) == multiset(toDel[i..])
      {
        var b := toDel[i];
        assert toDel[i..] == [b] + toDel[i + 1..];
        assert b in multiset(Dead(broadcasts, groups, consume));
        DeadAreInside(broadcasts, groups, consume);
        RemoveDead(broadcasts, b, groups, consume);
        broadcasts := Remove(broadcasts, b);
      }
      assert |multiset(Dead(broadcasts, groups, consume))| == 0;
      DeadAreInside(broadcasts, groups, consume);
    }
  }

  /** The first `i` broadcasts have been looked at. */
  ghost predicate Counted(sorted: seq<Broadcast>, i: nat, queue: seq<Broadcast>, toDel: seq<Broadcast>,
                          groups: set<string>, consume: bool)
  {
    && i <= |sorted| && queue == Bumped(sorted[..i], groups, consume) + sorted[i..]
    && toDel == Dead(Bumped(sorted[..i], groups, consume), groups, consume)
  }

  lemma CountOne(sorted: seq<Broadcast>, i: nat, queue: seq<Broadcast>, toDel: seq<Broadcast>,
                 groups: set<string>, consume: bool)
    requires i < |sorted| && Counted(sorted, i, queue, toDel, groups, consume)
    ensures |queue| == |sorted| && queue[i] == sorted[i]
    ensures var b := sorted[i];
            if !(b.group.None? || b.group.value in groups) || !consume then
              Counted(sorted, i + 1, queue, toDel, groups, consume)
            else
              var b' := b.(send := b.send + 1);
              Counted(sorted, i + 1, queue[i := b'],
                      if b'.send >= KGOSSIP then toDel + [b'] else toDel, groups, consume)
  {
    hide Dead;
    var b := sorted[i];
    var done := Bumped(sorted[..i], groups, consume);
    assert sorted[..i + 1] == sorted[..i] + [b];
    assert Bumped(sorted[..i + 1], groups, consume) == done + [Bump(b, groups, consume)];
    DeadPush(done, Bump(b, groups, consume), groups, consume);
    assert queue[i := Bump(b, groups, consume)] == done + [Bump(b, groups, consume)] + sorted[i + 1..];
    assert queue[i := queue[i]] == queue;
  }

  lemma AllCounted(sorted: seq<Broadcast>, queue: seq<Broadcast>, toDel: seq<Broadcast>,
                   groups: set<string>, consume: bool)
    requires Counted(sorted, |sorted|, queue, toDel, groups, consume)
    ensures queue == Bumped(sorted, groups, consume) && toDel == Dead(queue, groups, consume)
    ensures AfterPush(sorted, groups, consume) == Alive(queue, groups, consume)
  {
    assert sorted[..|sorted|] == sorted;
  }

  /** The packets closed so far are in `messages`, the open one in `stack`, and `message` is its text. */
  ghost predicate Stacked(packets: seq<seq<string>>, messages: seq<string>, stack: seq<string>,
                            message: string, dumps: Dumps) {
    if packets == [] then messages == [] && stack == [] && message == ""
    else
      var n := |packets| - 1;
      stack == packets[n] && stack != [] && message == dumps(stack) && messages == Texts(packets[..n], dumps)
  }

  lemma TextsPush(packets: seq<seq<string>>, n: nat, dumps: Dumps)
    requires n < |packets|
    ensures Texts(packets[..n + 1], dumps) == Texts(packets[..n], dumps) + [dumps(packets[n])]
  {
  }

  lemma PushNew(packets: seq<seq<string>>, m: string, dumps: Dumps)
    requires packets == [] || |dumps(packets[|packets| - 1] + [m])| > 1400
    ensures Push(packets, m, dumps) == packets + [[m]] && (packets + [[m]])[..|packets|] == packets
  {
  }

  lemma PushMore(packets: seq<seq<string>>, m: string, dumps: Dumps)
    requires packets != [] && |dumps(packets[|packets| - 1] + [m])| <= 1400
    ensures var n := |packets| - 1;
            var next := Push(packets, m, dumps);
            |next| == n + 1 && next[n] == packets[n] + [m] && next[..n] == packets[..n]
  {
  }

  lemma PushStacked(packets: seq<seq<string>>, messages: seq<string>, stack: seq<string>, message: string, m: string,
                    dumps: Dumps)
    requires Stacked(packets, messages, stack, message, dumps)
    ensures var more := stack + [m];
            var next := Push(packets, m, dumps);
            if |dumps(more)| > 1400 && |more| != 1 then Stacked(next, messages + [message], [m], dumps([m]), dumps)
            else Stacked(next, messages, more, dumps(more), dumps)
  {
    var none: seq<seq<string>> := [];
    assert Texts(none, dumps) == [];
    hide Texts, Push;
    if packets == [] {
      PushNew(packets, m, dumps);
    } else if |dumps(stack + [m])| > 1400 {
      PushNew(packets, m, dumps);
      TextsPush(packets, |packets| - 1, dumps);
      assert packets[..|packets|] == packets;
    } else {
      PushMore(packets, m, dumps);
    }
  }

  lemma LastMessage(packets: seq<seq<string>>, messages: seq<string>, stack: seq<string>, message: string, dumps: Dumps)
    requires Stacked(packets, messages, stack, message, dumps) && NeverEmpty(dumps)
    ensures Texts(packets, dumps) == if message != "" then messages + [message] else messages
    ensures message != "" <==> packets != []
  {
    if packets != [] {
      assert packets == packets[..|packets| - 1] + [packets[|packets| - 1]];
    }
  }

  lemma NothingYet(sorted: seq<Broadcast>, groups: set<string>, consume: bool, dumps: Dumps)
    ensures Packets(Selected(sorted[..0], groups), dumps) == [] && Stacked([], [], [], "", dumps)
    ensures Counted(sorted, 0, sorted, [], groups, consume)
  {
    var none: seq<Broadcast> := [];
    assert sorted[..0] == none && Bumped(none, groups, consume) == none;
  }

  lemma SelectedPush(queue: seq<Broadcast>, i: nat, groups: set<string>)
    requires i < |queue|
    ensures var b := queue[i];
            Selected(queue[..i + 1], groups)
            == if b.group.None? || b.group.value in groups then Selected(queue[..i], groups) + [b.msg]
               else Selected(queue[..i], groups)
  {
    assert queue[..i + 1][..i] == queue[..i];
  }

  lemma DeadPush(queue: seq<Broadcast>, b: Broadcast, groups: set<string>, consume: bool)
    ensures Dead(queue + [b], groups, consume)
         == Dead(queue, groups, consume) + if Expired(b, groups, consume) then [b] else []
  {
    assert (queue + [b])[..|queue|] == queue;
  }

  lemma PacketsPush(s: seq<string>, m: string, dumps: Dumps)
    ensures Packets(s + [m], dumps) == Push(Packets(s, dumps), m, dumps)
  {
    assert (s + [m])[..|s|] == s;
  }

  /** Without a message nothing was due to be removed either. */
  lemma {:induction false} NothingDies(queue: seq<Broadcast>, groups: set<string>, consume: bool, dumps: Dumps)
    requires Packets(Selected(queue, groups), dumps) == []
    ensures Bumped(queue, groups, consume) == queue && AfterPush(queue, groups, consume) == queue
  {
    NothingSelected(queue, groups);
    assert Bumped(queue, groups, consume) == queue;
    AllLive(queue, groups, consume);
  }

  lemma {:induction false} NothingSelected(queue: seq<Broadcast>, groups: set<string>)
    requires Selected(queue, groups) == []
    ensures forall i :: 0 <= i < |queue| ==> !Eligible(queue[i], groups)
  {
    if queue != [] {
      NothingSelected(queue[..|queue| - 1], groups);
    }
  }

  lemma {:induction false} AllLive(queue: seq<Broadcast>, groups: set<string>, consume: bool)
    requires forall i :: 0 <= i < |queue| ==> !Eligible(queue[i], groups)
    ensures Alive(queue, groups, consume) == queue
  {
    if queue != [] {
      AllLive(queue[..|queue| - 1], groups, consume);
    }
  }
}
