/** The key ring: which node of a group owns a key (opsbro/gossip.py) and which nodes hold its copies
    (opsbro/kv.py). Keys and node names are strings, compared character by character. */
module Ring {
  import opened GossipNodes

  type Name = string

  datatype Member = Member(state: State, groups: seq<string>)

  /** The strict order of strings. */
  predicate Before(a: Name, b: Name) {
    b != "" && (a == "" || a[0] < b[0] || (a[0] == b[0] && Before(a[1..], b[1..])))
  }

  lemma {:induction false} BeforeIsTransitive(a: Name, b: Name, c: Name)
    requires Before(a, b) && Before(b, c)
    ensures Before(a, c)
  {
    if a != "" && a[0] == b[0] && b[0] == c[0] {
      BeforeIsTransitive(a[1..], b[1..], c[1..]);
    }
  }

  lemma {:induction false} BeforeIsTotal(a: Name, b: Name)
    ensures a != b ==> Before(a, b) != Before(b, a)
    ensures a == b ==> !Before(a, b)
  {
    if a != "" && b != "" && a[0] == b[0] {
      BeforeIsTotal(a[1..], b[1..]);
      assert a == [a[0]] + a[1..] && b == [b[0]] + b[1..];
    }
  }

  /** Without the recursion: the first place at which the two differ, or at which `a` ends, decides. */
  lemma {:induction false} BeforeIsLexicographic(a: Name, b: Name)
    ensures Before(a, b)
            <==> exists k: nat :: k <= |a| && k < |b| && a[..k] == b[..k] && (k < |a| ==> a[k] < b[k])
  {
    if a == "" || b == "" || a[0] != b[0] {
      if Before(a, b) {
        assert a[..0] == b[..0];
      }
    } else {
      BeforeIsLexicographic(a[1..], b[1..]);
      if k: nat :| k <= |a| && k < |b| && a[..k] == b[..k] && (k < |a| ==> a[k] < b[k]) {
        assert k > 0 && a[1..][..k - 1] == a[..k][1..] && b[1..][..k - 1] == b[..k][1..];
      }
      if k: nat :| k < |a| && k < |b| - 1 && a[1..][..k] == b[1..][..k] && (k < |a| - 1 ==> a[1..][k] < b[1..][k]) {
        assert a[..k + 1] == [a[0]] + a[1..][..k] && b[..k + 1] == [b[0]] + b[1..][..k];
      }
    }
  }

  lemma TotalOrder()
    ensures forall a, b, c :: Before(a, b) && Before(b, c) ==> Before(a, c)
    ensures forall a, b :: a != b ==> Before(a, b) || Before(b, a)
    ensures forall a, b :: !(Before(a, b) && Before(b, a))
  {
    forall a, b, c | Before(a, b) && Before(b, c) ensures Before(a, c) { BeforeIsTransitive(a, b, c); }
    forall a, b ensures a != b ==> Before(a, b) || Before(b, a) { BeforeIsTotal(a, b); }
    forall a, b ensures !(Before(a, b) && Before(b, a)) { BeforeIsTotal(a, b); }
  }

  ghost predicate Sorted(s: seq<Name>) {
    forall i, j :: 0 <= i < j < |s| ==> Before(s[i], s[j])
  }

  ghost function Elements(s: seq<Name>): set<Name> {
    set x | x in s
  }

  // ---------------------------------------------------------------- the ring as a set

  predicate OnRing(m: Member, group: string) {
    m.state !in {Dead, Leave} && group in m.groups
  }

  function GroupMembers(table: map<Name, Member>, group: string): set<Name> {
    set u | u in table && OnRing(table[u], group)
  }

  /** The owner of a key: the last name not after it or, if every name is after it, the last of all. */
  ghost predicate IsOwner(nodes: set<Name>, key: Name, o: Name) {
    && o in nodes
    && (if exists u :: u in nodes && !Before(key, u)
        then !Before(key, o) && forall u :: u in nodes && u != o && !Before(key, u) ==> Before(u, o)
        else forall u :: u in nodes && u != o ==> Before(u, o))
  }

  lemma OwnerIsUnique(nodes: set<Name>, key: Name, o: Name, o': Name)
    requires IsOwner(nodes, key, o) && IsOwner(nodes, key, o')
    ensures o == o'
  {
    hide Before;
    TotalOrder();
  }

  /** When a node joins, a key keeps its owner or moves to the newcomer. */
  lemma JoinMovesOnlyToNewcomer(nodes: set<Name>, key: Name, o: Name, newcomer: Name, o': Name)
    requires IsOwner(nodes, key, o) && IsOwner(nodes + {newcomer}, key, o')
    ensures o' == o || o' == newcomer
  {
    hide Before;
    TotalOrder();
    if o' != newcomer {
      assert IsOwner(nodes, key, o');
    }
  }

  /** When a node leaves, only its own keys move. */
  lemma LeaveMovesOnlyItsKeys(nodes: set<Name>, key: Name, o: Name, gone: Name, o': Name)
    requires IsOwner(nodes, key, o) && gone != o && IsOwner(nodes - {gone}, key, o')
    ensures o' == o
  {
    hide Before;
    assert IsOwner(nodes - {gone}, key, o);
    OwnerIsUnique(nodes - {gone}, key, o, o');
  }

  // ---------------------------------------------------------------- the ring as a sorted list

  function Insert(x: Name, s: seq<Name>): seq<Name> {
    if s == [] || Before(x, s[0]) then [x] + s else [s[0]] + Insert(x, s[1..])
  }

  function Sort(s: seq<Name>): seq<Name> {
    if s == [] then [] else Insert(s[0], Sort(s[1..]))
  }

  lemma {:induction false} InsertSorts(x: Name, s: seq<Name>)
    requires Sorted(s) && x !in s
    ensures Sorted(Insert(x, s)) && Elements(Insert(x, s)) == Elements(s) + {x}
    ensures |Insert(x, s)| == |s| + 1
  {
    hide Before;
    TotalOrder();
    if s == [] || Before(x, s[0]) {
    } else {
      InsertSorts(x, s[1..]);
      var rest := Insert(x, s[1..]);
      forall i | 0 <= i < |rest| ensures Before(s[0], rest[i]) {
        assert rest[i] in Elements(rest);
      }
      assert Elements(s) == {s[0]} + Elements(s[1..]);
    }
  }

  lemma {:induction false} SortSorts(s: seq<Name>)
    requires forall i, j :: 0 <= i < j < |s| ==> s[i] != s[j]
    ensures Sorted(Sort(s)) && Elements(Sort(s)) == Elements(s) && |Sort(s)| == |s|
  {
    if s != [] {
      SortSorts(s[1..]);
      assert s[0] !in Elements(Sort(s[1..]));
      InsertSorts(s[0], Sort(s[1..]));
      assert Elements(s) == {s[0]} + Elements(s[1..]);
    }
  }

  /** How many names of a sorted ring are not after the key: what bisect_right returns. */
  function Slot(ring: seq<Name>, key: Name): (k: nat)
    ensures k <= |ring|
  {
    if ring == [] || Before(key, ring[0]) then 0 else 1 + Slot(ring[1..], key)
  }

  /** The position `k` steps before `p`, going round; a negative list index wraps like this. */
  function Back(n: nat, p: nat, k: nat): (q: nat)
    requires p < n && k <= n
    ensures q < n
  {
    if k <= p then p - k else p + n - k
  }

  function OwnerIndex(ring: seq<Name>, key: Name): (p: nat)
    requires ring != []
    ensures p < |ring|
  {
    if Slot(ring, key) == 0 then |ring| - 1 else Slot(ring, key) - 1
  }

  lemma {:induction false} SlotSplits(ring: seq<Name>, key: Name)
    requires Sorted(ring)
    ensures forall i :: 0 <= i < |ring| ==> (Before(key, ring[i]) <==> i >= Slot(ring, key))
  {
    hide Before;
    if ring != [] && !Before(key, ring[0]) {
      SlotSplits(ring[1..], key);
      forall i | 0 <= i < |ring| ensures Before(key, ring[i]) <==> i >= Slot(ring, key) {
        if i > 0 { assert ring[i] == ring[1..][i - 1]; }
      }
    } else {
      TotalOrder();
    }
  }

  lemma SlotIs(ring: seq<Name>, key: Name, k: nat)
    requires Sorted(ring) && k <= |ring|
    requires forall i :: 0 <= i < |ring| ==> (Before(key, ring[i]) <==> i >= k)
    ensures Slot(ring, key) == k
  {
    hide Before;
    SlotSplits(ring, key);
    var s := Slot(ring, key);
    assert s < |ring| ==> (Before(key, ring[s]) <==> s >= k);
    assert k < |ring| ==> (Before(key, ring[k]) <==> k >= s);
  }

  lemma OwnerOfRing(ring: seq<Name>, key: Name)
    requires Sorted(ring) && ring != []
    ensures IsOwner(Elements(ring), key, ring[OwnerIndex(ring, key)])
  {
    hide Before;
    TotalOrder();
    SlotSplits(ring, key);
    var p := OwnerIndex(ring, key);
    forall u | u in Elements(ring) && u != ring[p] && !Before(key, u) ensures Before(u, ring[p]) {
      var i :| 0 <= i < |ring| && ring[i] == u;
      assert Before(key, ring[i]) <==> i >= Slot(ring, key);
    }
    if Before(key, ring[p]) {
      forall u | u in Elements(ring) ensures Before(key, u) {
        var i :| 0 <= i < |ring| && ring[i] == u;
        assert Before(key, ring[p]) <==> p >= Slot(ring, key);
      }
      forall u | u in Elements(ring) && u != ring[p] ensures Before(u, ring[p]) {
        var i :| 0 <= i < |ring| && ring[i] == u;
      }
    }
  }

  // ---------------------------------------------------------------- lookups

  ghost predicate Enumerates(order: seq<Name>, table: map<Name, Member>) {
    && (forall u :: u in order <==> u in table)
    && (forall i, j :: 0 <= i < j < |order| ==> order[i] != order[j])
  }

  /** The members of a group, in the iteration order of the table. */
  method FindGroupNodes(table: map<Name, Member>, order: seq<Name>, group: string) returns (nodes: seq<Name>)
    requires Enumerates(order, table)
    ensures forall u :: u in nodes <==> u in table && table[u].state !in {Dead, Leave} && group in table[u].groups
    ensures Elements(nodes) == GroupMembers(table, group)
    ensures forall i, j :: 0 <= i < j < |nodes| ==> nodes[i] != nodes[j]
  {
    nodes := [];
    for k := 0 to |order|
      invariant forall u :: u in nodes <==> u in order[..k] && OnRing(table[u], group)
      invariant forall i, j :: 0 <= i < j < |nodes| ==> nodes[i] != nodes[j]
    {
      var node := table[order[k]];
      if node.state in {Dead, Leave} {
        continue;
      }
      if group in node.groups {
        assert order[k] !in order[..k];
        nodes := nodes + [order[k]];
      }
    }
    assert order[..|order|] == order;
  }

  method BisectRight(a: seq<Name>, x: Name) returns (lo: nat)
    requires Sorted(a)
    ensures lo == Slot(a, x)
  {
    hide Before;
    lo := 0;
    var hi := |a|;
    SlotSplits(a, x);
    while lo < hi
      invariant lo <= Slot(a, x) <= hi <= |a|
    {
      var mid := (lo + hi) / 2;
      assert Before(x, a[mid]) <==> mid >= Slot(a, x);
      if Before(x, a[mid]) {
        hi := mid;
      } else {
        lo := mid + 1;
      }
    }
  }

  /** The node that owns the key. The answer does not depend on the iteration order of the table. */
  method FindGroupNode(me: Name, table: map<Name, Member>, order: seq<Name>, group: string, key: Name)
    returns (owner: Name)
    requires Enumerates(order, table)
    ensures GroupMembers(table, group) == {} ==> owner == me
    ensures GroupMembers(table, group) != {} ==> IsOwner(GroupMembers(table, group), key, owner)
  {
    hide Before;
    var nodes := FindGroupNodes(table, order, group);
    if |nodes| == 0 {
      return me;
    }
    assert nodes[0] in Elements(nodes);
    SortSorts(nodes);
    var ring := Sort(nodes);
    assert Elements(ring) == GroupMembers(table, group);
    var slot: int := BisectRight(ring, key);
    var idx := slot - 1;
    OwnerOfRing(ring, key);
    owner := if idx < 0 then ring[|ring| + idx] else ring[idx];
  }

  // ---------------------------------------------------------------- replicas

  function Min(a: nat, b: nat): nat {
    if a < b then a else b
  }

  /** The replicas of the node at position `idx`, the nearest last: the nodes that come before it. */
  function Replicas(ring: seq<Name>, idx: nat, replicats: nat): (r: seq<Name>)
    requires idx < |ring|
  {
    var n := Min(replicats, |ring| - 1);
    seq(n, k requires 0 <= k < n => ring[Back(|ring|, idx, n - k)])
  }

  lemma ReplicasAreDistinctPredecessors(ring: seq<Name>, idx: nat, replicats: nat)
    requires Sorted(ring) && idx < |ring|
    ensures var r := Replicas(ring, idx, replicats);
            && |r| == Min(replicats, |ring| - 1)
            && ring[idx] !in r
            && (forall i, j :: 0 <= i < j < |r| ==> r[i] != r[j])
            && (forall k :: 1 <= k <= |r| ==> r[|r| - k] == ring[Back(|ring|, idx, k)])
  {
    hide Before;
    TotalOrder();
    var r := Replicas(ring, idx, replicats);
    var n := |r|;
    forall i, j | 0 <= i < j < n ensures r[i] != r[j] {
      assert Back(|ring|, idx, n - i) != Back(|ring|, idx, n - j);
    }
    forall i | 0 <= i < n ensures r[i] != ring[idx] {
      assert Back(|ring|, idx, n - i) != idx;
    }
  }

  method IndexOf(ring: seq<Name>, me: Name) returns (idx: nat)
    requires me in ring
    ensures idx < |ring| && ring[idx] == me
  {
    assert ring[..|ring|] == ring;
    for i := 0 to |ring|
      invariant me !in ring[..i]
    {
      if ring[i] == me {
        return i;
      }
    }
  }

  lemma PositionIsUnique(ring: seq<Name>, p: nat)
    requires Sorted(ring) && p < |ring|
    ensures forall q :: 0 <= q < |ring| && ring[q] == ring[p] ==> q == p
  {
    hide Before;
    TotalOrder();
  }

  /** Walk the list backwards round from the node itself, leaving the node itself out. */
  method PickReplicas(ring: seq<Name>, idx: nat, replicats: nat) returns (r: seq<Name>)
    requires Sorted(ring) && idx < |ring|
    ensures r == Replicas(ring, idx, replicats)
  {
    hide Before, Sorted;
    var nbRep := Min(replicats, |ring|);
    r := [];
    PositionIsUnique(ring, idx);
    var n := Min(replicats, |ring| - 1);
    for i: int := idx - nbRep to idx
      invariant r == Replicas(ring, idx, replicats)[..if i <= idx - n then 0 else i - (idx - n)]
    {
      var uuid := if i < 0 then ring[|ring| + i] else ring[i];
      assert uuid == ring[Back(|ring|, idx, idx - i)];
      if uuid == ring[idx] {
        continue;
      }
      r := r + [uuid];
    }
  }

  /** The nodes this node sends its keys to; with no place on the ring, none. */
  method GetMyReplicats(me: Name, kvNodes: seq<Name>, replicats: nat) returns (r: seq<Name>)
    requires forall i, j :: 0 <= i < j < |kvNodes| ==> kvNodes[i] != kvNodes[j]
    ensures me !in kvNodes ==> r == []
    ensures me in kvNodes ==>
              var ring := Sort(kvNodes);
              exists idx :: 0 <= idx < |ring| && ring[idx] == me && r == Replicas(ring, idx, replicats)
  {
    hide Before;
    SortSorts(kvNodes);
    var ring := Sort(kvNodes);
    assert me in ring <==> me in Elements(ring);
    assert me in kvNodes <==> me in Elements(kvNodes);
    if me !in ring {
      return [];
    }
    var idx := IndexOf(ring, me);
    r := PickReplicas(ring, idx, replicats);
  }

  // ---------------------------------------------------------------- failover

  function Without(ring: seq<Name>, p: nat): (r: seq<Name>)
    requires p < |ring|
    ensures |r| == |ring| - 1
  {
    ring[..p] + ring[p + 1..]
  }

  /** The ring after the key has lost its owner `losses` times in a row. */
  function AfterLosses(ring: seq<Name>, key: Name, losses: nat): (r: seq<Name>)
    requires losses < |ring|
    ensures |r| == |ring| - losses
    decreases losses
  {
    if losses == 0 then ring else AfterLosses(Without(ring, OwnerIndex(ring, key)), key, losses - 1)
  }

  lemma WithoutStaysSorted(ring: seq<Name>, p: nat)
    requires Sorted(ring) && p < |ring|
    ensures Sorted(Without(ring, p)) && Elements(Without(ring, p)) == Elements(ring) - {ring[p]}
  {
    hide Before;
    TotalOrder();
    var r := Without(ring, p);
    forall u | u in Elements(ring) && u != ring[p] ensures u in Elements(r) {
      var i :| 0 <= i < |ring| && ring[i] == u;
      assert r[if i < p then i else i - 1] == u;
    }
    forall u | u in Elements(r) ensures u in Elements(ring) && u != ring[p] {
      var i :| 0 <= i < |r| && r[i] == u;
      assert u == ring[if i < p then i else i + 1];
    }
  }

  /** When the owner goes, the ring seen from the new owner is the old ring seen from the node before. */
  lemma LossStepsBack(ring: seq<Name>, key: Name)
    requires Sorted(ring) && |ring| >= 2
    ensures var p := OwnerIndex(ring, key);
            var ring' := Without(ring, p);
            var p' := OwnerIndex(ring', key);
            forall k :: 0 <= k < |ring'| ==> ring'[Back(|ring'|, p', k)] == ring[Back(|ring|, p, k + 1)]
  {
    hide Before;
    var p := OwnerIndex(ring, key);
    var ring' := Without(ring, p);
    WithoutStaysSorted(ring, p);
    SlotSplits(ring, key);
    var s := Slot(ring, key);
    var s' := if s == 0 then 0 else s - 1;
    forall i | 0 <= i < |ring'| ensures Before(key, ring'[i]) <==> i >= s' {
      assert ring'[i] == ring[if i < p then i else i + 1];
    }
    SlotIs(ring', key, s');
  }

  /** After any number of owner losses the key is owned by the node that many steps before the first owner. */
  lemma {:induction false} LossesStepBack(ring: seq<Name>, key: Name, losses: nat)
    requires Sorted(ring) && losses < |ring|
    ensures var left := AfterLosses(ring, key, losses);
            && Sorted(left)
            && left[OwnerIndex(left, key)] == ring[Back(|ring|, OwnerIndex(ring, key), losses)]
    decreases losses
  {
    if losses > 0 {
      var p := OwnerIndex(ring, key);
      WithoutStaysSorted(ring, p);
      LossStepsBack(ring, key);
      LossesStepBack(Without(ring, p), key, losses - 1);
    }
  }

  /** Through as many owner losses in a row as there are replicas, the key is always owned by one of the
      replicas of its first owner: the nearest first. */
  lemma KeyStaysOnAReplica(ring: seq<Name>, key: Name, replicats: nat, losses: nat)
    requires Sorted(ring) && 1 <= losses <= replicats && losses < |ring|
    ensures var r := Replicas(ring, OwnerIndex(ring, key), replicats);
            var left := AfterLosses(ring, key, losses);
            && losses <= |r| && left[OwnerIndex(left, key)] == r[|r| - losses]
            && IsOwner(Elements(left), key, r[|r| - losses])
  {
    hide Before;
    LossesStepBack(ring, key, losses);
    ReplicasAreDistinctPredecessors(ring, OwnerIndex(ring, key), replicats);
    OwnerOfRing(AfterLosses(ring, key, losses), key);
  }

  lemma ElementsOfTail(s: seq<Name>)
    requires Sorted(s) && s != []
    ensures Elements(s[1..]) == Elements(s) - {s[0]}
  {
    WithoutStaysSorted(s, 0);
    assert Without(s, 0) == s[1..];
  }

  lemma {:induction false} SizeOfSorted(ring: seq<Name>)
    requires Sorted(ring)
    ensures |Elements(ring)| == |ring|
  {
    if ring != [] {
      SizeOfSorted(ring[1..]);
      ElementsOfTail(ring);
      assert ring[0] in Elements(ring);
    }
  }

  lemma {:induction false} SortedIsUnique(s: seq<Name>, t: seq<Name>)
    requires Sorted(s) && Sorted(t) && Elements(s) == Elements(t)
    ensures s == t
  {
    hide Before;
    TotalOrder();
    if s == [] || t == [] {
      assert |Elements(s)| == |s| && |Elements(t)| == |t| by { SizeOfSorted(s); SizeOfSorted(t); }
    } else {
      assert s[0] in Elements(t) && t[0] in Elements(s);
      assert s[0] == t[0];
      assert Elements(s[1..]) == Elements(s) - {s[0]} by { ElementsOfTail(s); }
      assert Elements(t[1..]) == Elements(t) - {t[0]} by { ElementsOfTail(t); }
      SortedIsUnique(s[1..], t[1..]);
      assert s == [s[0]] + s[1..] && t == [t[0]] + t[1..];
    }
  }

  /** The lookup and the replication meet: if the owner of a key dies or leaves, the node the lookup then
      finds is exactly the node the owner had been sending the key to. */
  lemma FailoverFindsTheReplica(table: map<Name, Member>, group: string, key: Name, owner: Name, gone: State,
                                ring: seq<Name>, idx: nat, after: Name)
    requires IsOwner(GroupMembers(table, group), key, owner) && gone in {Dead, Leave}
    requires Sorted(ring) && Elements(ring) == GroupMembers(table, group) && |ring| >= 2
    requires idx < |ring| && ring[idx] == owner
    requires owner in table && IsOwner(GroupMembers(table[owner := table[owner].(state := gone)], group), key, after)
    ensures Replicas(ring, idx, 1) == [after]
  {
    hide Before, IsOwner;
    var p := OwnerIndex(ring, key);
    OwnerOfRing(ring, key);
    OwnerIsUnique(Elements(ring), key, owner, ring[p]);
    PositionIsUnique(ring, p);
    KeyStaysOnAReplica(ring, key, 1, 1);
    WithoutStaysSorted(ring, p);
    var table' := table[owner := table[owner].(state := gone)];
    assert GroupMembers(table', group) == GroupMembers(table, group) - {owner};
    assert AfterLosses(ring, key, 1) == Without(ring, p);
    OwnerIsUnique(Elements(Without(ring, p)), key, Replicas(ring, p, 1)[0], after);
  }
}
