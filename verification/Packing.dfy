/** Packing the waiting broadcasts into datagrams (the loop of __do_gossip_push in opsbro/gossip.py). */
module Packing {
  /** A datagram holds at most this many characters, unless it holds a single message. */
  const MAX_LEN := 1400

  /** The JSON text of a list of messages, given the JSON text of each. */
  type Dumps = seq<string> -> string

  /** A list is never written shorter than the stretches it contains. */
  ghost predicate Monotone(dumps: Dumps) {
    forall s, i, j :: 0 <= i <= j <= |s| ==> |dumps(s[i..j])| <= |dumps(s)|
  }

  ghost predicate NeverEmpty(dumps: Dumps) {
    forall s :: dumps(s) != ""
  }

  // ---------------------------------------------------------------- JSON lists

  function JsonItems(s: seq<string>): string {
    if s == [] then "" else if |s| == 1 then s[0] else s[0] + ", " + JsonItems(s[1..])
  }

  /** The usual list text. */
  function JsonList(s: seq<string>): string {
    "[" + JsonItems(s) + "]"
  }

  /** The items in order, with a comma and a blank between any two. */
  lemma {:induction false} JsonAppend(xs: seq<string>, ys: seq<string>)
    requires xs != [] && ys != []
    ensures JsonItems(xs + ys) == JsonItems(xs) + ", " + JsonItems(ys)
  {
    if |xs| == 1 {
      assert (xs + ys)[1..] == ys;
    } else {
      assert (xs + ys)[1..] == xs[1..] + ys;
      JsonAppend(xs[1..], ys);
      assert xs[0] + ", " + (JsonItems(xs[1..]) + ", " + JsonItems(ys)) == JsonItems(xs) + ", " + JsonItems(ys);
    }
  }

  lemma JsonOne(x: string)
    ensures JsonList([x]) == "[" + x + "]" && JsonList([]) == "[]"
  {
  }

  lemma {:induction false} JsonDrop(s: seq<string>, i: nat)
    requires i <= |s|
    ensures |JsonItems(s[i..])| <= |JsonItems(s)|
  {
    if i == 0 {
      assert s[0..] == s;
    } else {
      JsonDrop(s[1..], i - 1);
      assert s[1..][i - 1..] == s[i..];
      if |s| == 1 {
        assert s[1..] == [];
      }
    }
  }

  lemma {:induction false} JsonTake(s: seq<string>, j: nat)
    requires j <= |s|
    ensures |JsonItems(s[..j])| <= |JsonItems(s)|
  {
    if j == |s| {
      assert s[..j] == s;
    } else if j > 0 {
      JsonTake(s[1..], j - 1);
      assert s[1..][..j - 1] == s[..j][1..];
    }
  }

  /** JSON lists are a way of writing that the packer can rely on. */
  lemma JsonListIsMonotone()
    ensures Monotone(JsonList) && NeverEmpty(JsonList)
  {
    forall s: seq<string>, i, j | 0 <= i <= j <= |s| ensures |JsonList(s[i..j])| <= |JsonList(s)| {
      JsonTake(s, j);
      JsonDrop(s[..j], i);
      assert s[..j][i..] == s[i..j];
    }
  }

  // ---------------------------------------------------------------- the packets

  predicate Fits(packet: seq<string>, dumps: Dumps) {
    |packet| == 1 || |dumps(packet)| <= MAX_LEN
  }

  /** Put a message into the last packet if it still fits there, else into a new one. */
  function Push(packets: seq<seq<string>>, m: string, dumps: Dumps): seq<seq<string>> {
    var n := |packets|;
    if n > 0 && |dumps(packets[n - 1] + [m])| <= MAX_LEN then packets[n - 1 := packets[n - 1] + [m]]
    else packets + [[m]]
  }

  function Packets(s: seq<string>, dumps: Dumps): (packets: seq<seq<string>>)
    ensures s != [] ==> packets != []
  {
    if s == [] then [] else Push(Packets(s[..|s| - 1], dumps), s[|s| - 1], dumps)
  }

  function Concat(packets: seq<seq<string>>): seq<string> {
    if packets == [] then [] else Concat(packets[..|packets| - 1]) + packets[|packets| - 1]
  }

  predicate MayBeSent(packet: seq<string>, dumps: Dumps) {
    packet != [] && Fits(packet, dumps)
  }

  /** A way to cut `s` into consecutive packets that may be sent. */
  ghost predicate IsCut(cut: seq<seq<string>>, s: seq<string>, dumps: Dumps) {
    Concat(cut) == s && forall i :: 0 <= i < |cut| ==> MayBeSent(cut[i], dumps)
  }

  lemma CutPush(cut: seq<seq<string>>, s: seq<string>, p: seq<string>, dumps: Dumps)
    requires IsCut(cut, s, dumps) && MayBeSent(p, dumps)
    ensures IsCut(cut + [p], s + p, dumps)
  {
    assert (cut + [p])[..|cut|] == cut;
  }

  lemma CutPop(cut: seq<seq<string>>, s: seq<string>, dumps: Dumps)
    requires IsCut(cut, s, dumps) && cut != []
    ensures var last := cut[|cut| - 1];
            && MayBeSent(last, dumps) && |last| <= |s| && s[|s| - |last|..] == last
            && IsCut(cut[..|cut| - 1], s[..|s| - |last|], dumps)
  {
  }

  lemma PushKeeps(packets: seq<seq<string>>, s: seq<string>, m: string, dumps: Dumps)
    requires IsCut(packets, s, dumps)
    ensures IsCut(Push(packets, m, dumps), s + [m], dumps)
  {
    var n := |packets|;
    if n > 0 && |dumps(packets[n - 1] + [m])| <= MAX_LEN {
      var last := packets[n - 1];
      var rest := s[..|s| - |last|];
      CutPop(packets, s, dumps);
      CutPush(packets[..n - 1], rest, last + [m], dumps);
      assert rest + (last + [m]) == s + [m];
      assert packets[n - 1 := last + [m]] == packets[..n - 1] + [last + [m]];
    } else {
      CutPush(packets, s, [m], dumps);
    }
  }

  /** Nothing is lost, doubled or moved, and every packet is short enough or holds one message. */
  lemma {:induction false} PacketsAreACut(s: seq<string>, dumps: Dumps)
    ensures IsCut(Packets(s, dumps), s, dumps)
  {
    if s != [] {
      var n := |s| - 1;
      PacketsAreACut(s[..n], dumps);
      PushKeeps(Packets(s[..n], dumps), s[..n], s[n], dumps);
      assert s[..n] + [s[n]] == s;
    }
  }

  /** The first message of a packet no longer fits in the packet before. */
  ghost predicate Full(packets: seq<seq<string>>, dumps: Dumps) {
    forall i, j :: 0 <= i && j == i + 1 && j < |packets| ==>
      packets[j] != [] && |dumps(packets[i] + [packets[j][0]])| > MAX_LEN
  }

  /** A packet is closed only when the next message does not fit. */
  lemma {:induction false} PacketsAreFull(s: seq<string>, dumps: Dumps)
    ensures Full(Packets(s, dumps), dumps)
  {
    if s != [] {
      var front, m := s[..|s| - 1], s[|s| - 1];
      PacketsAreFull(front, dumps);
      PacketsAreACut(front, dumps);
      var packets, all := Packets(front, dumps), Packets(s, dumps);
      forall i, j | 0 <= i && j == i + 1 && j < |all|
        ensures all[j] != [] && |dumps(all[i] + [all[j][0]])| > MAX_LEN
      {
        assert j < |packets| ==> MayBeSent(packets[j], dumps) && all[j][0] == packets[j][0] && all[i] == packets[i];
      }
    }
  }

  ghost function LastSize(packets: seq<seq<string>>): nat {
    if packets == [] then 0 else |packets[|packets| - 1]|
  }

  /** Fewer packets, or as many with a last one that is no larger. */
  ghost predicate Ahead(packets: seq<seq<string>>, cut: seq<seq<string>>) {
    |packets| < |cut| || (|packets| == |cut| && LastSize(packets) <= LastSize(cut))
  }

  /** `shorter` is `cut` without its last message, `m`. */
  ghost predicate Shrunk(shorter: seq<seq<string>>, cut: seq<seq<string>>, m: string, dumps: Dumps) {
    var n := |cut| - 1;
    && cut != [] && cut[n] != [] && cut[n][|cut[n]| - 1] == m
    && if |cut[n]| == 1 then shorter == cut[..n]
       else |shorter| == n + 1 && shorter[n] == cut[n][..|cut[n]| - 1] && |dumps(cut[n])| <= MAX_LEN
  }

  lemma CutShrinks(cut: seq<seq<string>>, s: seq<string>, m: string, dumps: Dumps) returns (shorter: seq<seq<string>>)
    requires IsCut(cut, s + [m], dumps) && Monotone(dumps)
    ensures IsCut(shorter, s, dumps) && Shrunk(shorter, cut, m, dumps)
  {
    assert cut != [];
    var n := |cut| - 1;
    var last := cut[n];
    CutPop(cut, s + [m], dumps);
    var k := |last| - 1;
    assert last[k] == m && (s + [m])[..|s + [m]| - |last|] == s[..|s| - k];
    if k == 0 {
      shorter := cut[..n];
      assert s[..|s| - k] == s;
    } else {
      shorter := cut[..n] + [last[..k]];
      assert |dumps(last[0..k])| <= |dumps(last)| && last[0..k] == last[..k];
      CutPush(cut[..n], s[..|s| - k], last[..k], dumps);
      assert s[..|s| - k] + last[..k] == s;
    }
  }

  /** What is ahead stays ahead when a message is added. */
  lemma AheadStep(packets: seq<seq<string>>, shorter: seq<seq<string>>, cut: seq<seq<string>>,
                    s: seq<string>, m: string,
                  dumps: Dumps)
    requires Monotone(dumps) && IsCut(packets, s, dumps) && IsCut(shorter, s, dumps)
    requires Shrunk(shorter, cut, m, dumps) && Ahead(packets, shorter)
    ensures Ahead(Push(packets, m, dumps), cut)
  {
    var last := cut[|cut| - 1];
    if |last| > 1 && |packets| == |cut| {
      var mine := packets[|packets| - 1];
      CutPop(packets, s, dumps);
      CutPop(shorter, s, dumps);
      var k := |last| - 1 - |mine|;
      assert mine == last[..|last| - 1][k..];
      assert last[k..|last|] == mine + [m];
      assert |dumps(last[k..|last|])| <= |dumps(last)|;
    }
  }

  lemma {:induction false} GreedyIsAhead(s: seq<string>, cut: seq<seq<string>>, dumps: Dumps)
    requires Monotone(dumps) && IsCut(cut, s, dumps)
    ensures Ahead(Packets(s, dumps), cut)
    decreases |s|
  {
    if s != [] {
      var n := |s| - 1;
      assert s == s[..n] + [s[n]];
      var shorter := CutShrinks(cut, s[..n], s[n], dumps);
      GreedyIsAhead(s[..n], shorter, dumps);
      PacketsAreACut(s[..n], dumps);
      AheadStep(Packets(s[..n], dumps), shorter, cut, s[..n], s[n], dumps);
    }
  }

  /** No other way to cut the messages into packets that may be sent uses fewer packets. */
  lemma FewestPackets(s: seq<string>, cut: seq<seq<string>>, dumps: Dumps)
    requires Monotone(dumps) && IsCut(cut, s, dumps)
    ensures |Packets(s, dumps)| <= |cut|
  {
    GreedyIsAhead(s, cut, dumps);
  }

  /** The texts that are sent. */
  function Texts(packets: seq<seq<string>>, dumps: Dumps): (texts: seq<string>)
    ensures |texts| == |packets| && forall i :: 0 <= i < |packets| ==> texts[i] == dumps(packets[i])
  {
    seq(|packets|, i requires 0 <= i < |packets| => dumps(packets[i]))
  }
}
