/** The hierarchy of zones and its cached closures (opsbro/zonemanager.py). */
module Zones {
  const MAX_ZONE_LEVELS := 32

  /** The names of the sub zones each known zone lists; some may not be known zones. */
  type Hierarchy = map<string, seq<string>>

  /** `b` is reached from `a` through known zones by at least one and at most `n` steps down. */
  predicate Reach(zones: Hierarchy, a: string, b: string, n: nat)
    decreases n, 1
  {
    n > 0 && a in zones && ReachVia(zones, zones[a], b, n - 1)
  }

  /** `b` is one of the known zones of `subs`, or reached from one of them by at most `n` more steps. */
  predicate ReachVia(zones: Hierarchy, subs: seq<string>, b: string, n: nat)
    decreases n, 2
  {
    exists s :: s in subs && s in zones && (s == b || Reach(zones, s, b, n))
  }

  function ReachedVia(zones: Hierarchy, subs: seq<string>, n: nat): set<string> {
    set b | b in zones && ReachVia(zones, subs, b, n)
  }

  /** What the bounded recursion collects for a zone. */
  function SubZones(zones: Hierarchy, a: string): set<string> {
    set b | b in zones && Reach(zones, a, b, MAX_ZONE_LEVELS + 1)
  }

  /** The zones among `some` that have `b` below them. */
  function TopZonesAmong(zones: Hierarchy, b: string, some: set<string>): set<string> {
    set a | a in some && b in SubZones(zones, a)
  }

  function TopZones(zones: Hierarchy, b: string): set<string> {
    TopZonesAmong(zones, b, zones.Keys)
  }

  lemma SubZonesAreKnown(zones: Hierarchy)
    ensures forall z :: SubZones(zones, z) <= zones.Keys
  {
  }

  lemma OneMoreTop(zones: Hierarchy, some: set<string>, a: string)
    ensures forall z :: TopZonesAmong(zones, z, some + {a})
              == TopZonesAmong(zones, z, some) + if z in SubZones(zones, a) then {a} else {}
  {
  }

  function AllSubZones(zones: Hierarchy): map<string, set<string>> {
    map z | z in zones :: SubZones(zones, z)
  }

  function AllTopZones(zones: Hierarchy): map<string, set<string>> {
    map z | z in zones :: TopZones(zones, z)
  }

  class ZoneManager {
    var zones: Hierarchy
    var dirtyTree: bool
    var topToBottom: map<string, set<string>>
    var bottomToTop: map<string, set<string>>

    /** A clean cache is the closure of the current zones and its converse. */
    ghost predicate Valid()
      reads this
    {
      !dirtyTree ==>
        && topToBottom == AllSubZones(zones) && bottomToTop == AllTopZones(zones)
    }

    constructor ()
      ensures Valid() && zones == map[]
    {
      zones, dirtyTree, topToBottom, bottomToTop := map[], true, map[], map[];
    }

    /** Collect into the shared set whatever is below a zone, down to the last allowed level. */
    method GetSubZonesRec(zname: string, subZonesSet: set<string>, level: nat) returns (r: set<string>)
      requires level <= MAX_ZONE_LEVELS + 1
      ensures r == subZonesSet + set b | b in zones && Reach(zones, zname, b, MAX_ZONE_LEVELS + 1 - level)
      decreases MAX_ZONE_LEVELS + 1 - level
    {
      r := subZonesSet;
      if zname !in zones {
        return;
      }
      if level > MAX_ZONE_LEVELS {
        return;
      }
      var subZones := zones[zname];
      var budget := MAX_ZONE_LEVELS - level;
      for i := 0 to |subZones|
        invariant r == subZonesSet + ReachedVia(zones, subZones[..i], budget)
      {
        var name := subZones[i];
        assert subZones[..i + 1] == subZones[..i] + [name];
        if name !in zones {
          continue;
        }
        r := r + {name};
        r := GetSubZonesRec(name, r, level + 1);
      }
      assert subZones[..|subZones|] == subZones;
    }

    method ComputeSubZones()
      modifies this`topToBottom, this`bottomToTop
      ensures topToBottom == AllSubZones(zones)
      ensures bottomToTop.Keys == zones.Keys && forall z :: z in zones ==> bottomToTop[z] == {}
    {
      topToBottom := map[];
      bottomToTop := map[];
      var todo := zones.Keys;
      while todo != {}
        invariant todo <= zones.Keys
        invariant topToBottom.Keys == bottomToTop.Keys == zones.Keys - todo
        invariant forall z :: z in topToBottom ==> topToBottom[z] == SubZones(zones, z) && bottomToTop[z] == {}
      {
        var zname :| zname in todo;
        var subZoneSet := GetSubZonesRec(zname, {}, 0);
        topToBottom := topToBottom[zname := subZoneSet];
        bottomToTop := bottomToTop[zname := {}];
        todo := todo - {zname};
      }
    }

    /** Register a zone as a top of each of its sub zones. */
    method AddTop(zname: string, subZones: set<string>)
      requires subZones <= bottomToTop.Keys
      modifies this`bottomToTop
      ensures bottomToTop.Keys == old(bottomToTop.Keys)
      ensures forall z :: z in bottomToTop ==>
                bottomToTop[z] == old(bottomToTop)[z] + if z in subZones then {zname} else {}
    {
      var todo := subZones;
      while todo != {}
        invariant todo <= subZones && bottomToTop.Keys == old(bottomToTop.Keys)
        invariant forall z :: z in bottomToTop ==>
                    bottomToTop[z] == old(bottomToTop)[z] + if z in subZones - todo then {zname} else {}
      {
        var subZoneName :| subZoneName in todo;
        bottomToTop := bottomToTop[subZoneName := bottomToTop[subZoneName] + {zname}];
        todo := todo - {subZoneName};
      }
    }

    /** `bottomToTop` tells for every zone which of the zones in `done` have it below them. */
    ghost predicate LinkedUpTo(done: set<string>)
      reads this
    {
      bottomToTop.Keys == zones.Keys && forall z :: z in zones ==> bottomToTop[z] == TopZonesAmong(zones, z, done)
    }

    method ComputeTopZones()
      requires topToBottom == AllSubZones(zones)
      requires bottomToTop.Keys == zones.Keys && forall z :: z in zones ==> bottomToTop[z] == {}
      modifies this`bottomToTop
      ensures bottomToTop == AllTopZones(zones)
    {
      var todo := topToBottom.Keys;
      ghost var done: set<string> := {};
      while todo != {}
        invariant todo + done == zones.Keys && LinkedUpTo(done)
      {
        var zname :| zname in todo;
        LinkTop(zname, done);
        todo, done := todo - {zname}, done + {zname};
      }
      assert done == zones.Keys;
    }

    method LinkTop(zname: string, ghost done: set<string>)
      requires zname in zones && topToBottom == AllSubZones(zones) && LinkedUpTo(done)
      modifies this`bottomToTop
      ensures LinkedUpTo(done + {zname})
    {
      hide SubZones, TopZonesAmong;
      SubZonesAreKnown(zones);
      OneMoreTop(zones, done, zname);
      AddTop(zname, topToBottom[zname]);
    }

    method Relink()
      modifies this`dirtyTree, this`topToBottom, this`bottomToTop
      ensures Valid() && !dirtyTree
    {
      dirtyTree := true;
      ComputeSubZones();
      ComputeTopZones();
      dirtyTree := false;
    }

    /** A nameless zone is ignored. */
    method AddZone(name: string, subZones: seq<string>)
      requires Valid()
      modifies this`zones, this`dirtyTree
      ensures Valid() && zones == if name == "" then old(zones) else old(zones)[name := subZones]
    {
      if name == "" {
        return;
      }
      zones := zones[name := subZones];
      dirtyTree := true;
    }

    /** Whatever was added or asked before, the answer is that of the zones known now. */
    method GetTopZonesFrom(zname: string) returns (r: set<string>)
      requires Valid()
      modifies this`dirtyTree, this`topToBottom, this`bottomToTop
      ensures Valid() && r == if zname in zones then TopZones(zones, zname) else {}
    {
      if dirtyTree {
        Relink();
      }
      if zname !in bottomToTop {
        return {};
      }
      return bottomToTop[zname];
    }

    method GetSubZonesFrom(zname: string) returns (r: set<string>)
      requires Valid()
      modifies this`dirtyTree, this`topToBottom, this`bottomToTop
      ensures Valid() && r == SubZones(zones, zname)
    {
      if dirtyTree {
        Relink();
      }
      if zname !in topToBottom {
        return {};
      }
      return topToBottom[zname];
    }
  }

  // ---------------------------------------------------------------- what the bound is worth

  /** A walk goes down from zone to zone, at least one step. */
  ghost predicate IsWalk(zones: Hierarchy, w: seq<string>) {
    && |w| >= 2
    && (forall i :: 0 <= i < |w| ==> w[i] in zones)
    && (forall i, j :: 0 <= i && j == i + 1 && j < |w| ==> w[j] in zones[w[i]])
  }

  ghost predicate WalkFrom(zones: Hierarchy, a: string, b: string, w: seq<string>) {
    IsWalk(zones, w) && w[0] == a && w[|w| - 1] == b
  }

  /** All zones below `a`, at any depth. */
  ghost predicate IsBelow(zones: Hierarchy, a: string, b: string) {
    exists w :: WalkFrom(zones, a, b, w)
  }

  lemma {:induction false} WalkReaches(zones: Hierarchy, a: string, b: string, w: seq<string>, n: nat)
    requires WalkFrom(zones, a, b, w) && |w| <= n + 1
    ensures Reach(zones, a, b, n)
    decreases n
  {
    var s := w[1];
    assert s in zones[a] && s in zones;
    if |w| == 2 {
      assert ReachVia(zones, zones[a], b, n - 1);
    } else {
      WalkReaches(zones, s, b, w[1..], n - 1);
    }
  }

  lemma {:induction false} ReachWalks(zones: Hierarchy, a: string, b: string, n: nat) returns (w: seq<string>)
    requires Reach(zones, a, b, n)
    ensures WalkFrom(zones, a, b, w) && |w| <= n + 1
    decreases n
  {
    var s :| s in zones[a] && s in zones && (s == b || Reach(zones, s, b, n - 1));
    if s == b {
      w := [a, b];
    } else {
      var rest := ReachWalks(zones, s, b, n - 1);
      w := [a] + rest;
    }
  }

  /** The answers are exactly the zones some walk of 1 to 33 steps leads to. */
  lemma SubZonesAreShortWalks(zones: Hierarchy, a: string, b: string)
    ensures b in SubZones(zones, a) <==> exists w :: WalkFrom(zones, a, b, w) && |w| - 1 <= 33
  {
    if b in SubZones(zones, a) {
      var w := ReachWalks(zones, a, b, MAX_ZONE_LEVELS + 1);
    }
    if w :| WalkFrom(zones, a, b, w) && |w| - 1 <= MAX_ZONE_LEVELS + 1 {
      WalkReaches(zones, a, b, w, MAX_ZONE_LEVELS + 1);
    }
  }

  /** Upwards, they are exactly the zones from which such a walk comes. */
  lemma TopZonesAreShortWalks(zones: Hierarchy, a: string, b: string)
    ensures a in TopZones(zones, b) <==> exists w :: WalkFrom(zones, a, b, w) && |w| - 1 <= 33
  {
    SubZonesAreShortWalks(zones, a, b);
  }

  lemma {:induction false} Pigeonhole(s: seq<string>, all: set<string>) returns (i: nat, j: nat)
    requires |s| > |all| && forall k :: 0 <= k < |s| ==> s[k] in all
    ensures i < j < |s| && s[i] == s[j]
  {
    if k :| 1 <= k < |s| && s[k] == s[0] {
      i, j := 0, k;
    } else {
      i, j := Pigeonhole(s[1..], all - {s[0]});
      i, j := i + 1, j + 1;
    }
  }

  /** A walk that visits a zone twice can be cut short. */
  lemma {:induction false} ShortenWalk(zones: Hierarchy, a: string, b: string, w: seq<string>) returns (v: seq<string>)
    requires WalkFrom(zones, a, b, w)
    ensures WalkFrom(zones, a, b, v) && |v| - 1 <= |zones|
    decreases |w|
  {
    if |w| - 1 <= |zones| {
      v := w;
    } else {
      var i, j := Pigeonhole(w[1..], zones.Keys);
      var cut := w[..i + 2] + w[j + 2..];
      assert w[i + 1] == w[j + 1];
      v := ShortenWalk(zones, a, b, cut);
    }
  }

  /** With at most 33 zones, cyclic or not, the bounded recursion misses nothing, downwards or upwards. */
  lemma SmallHierarchiesAreComplete(zones: Hierarchy, a: string, b: string)
    requires |zones| <= 33
    ensures b in SubZones(zones, a) <==> IsBelow(zones, a, b)
    ensures a in TopZones(zones, b) <==> IsBelow(zones, a, b)
  {
    SubZonesAreShortWalks(zones, a, b);
    TopZonesAreShortWalks(zones, a, b);
    if w :| WalkFrom(zones, a, b, w) {
      var v := ShortenWalk(zones, a, b, w);
    }
  }

  /** Nothing below `a` is met for the first time at step `n + 1`. */
  ghost predicate NothingAfter(zones: Hierarchy, a: string, n: nat) {
    forall b :: Reach(zones, a, b, n + 1) ==> Reach(zones, a, b, n)
  }

  /** A walk of more than 33 steps has an equally good short one, if nothing is first met at the 34th step. */
  lemma {:induction false} CutAtLastLevel(zones: Hierarchy, a: string, b: string, w: seq<string>)
    requires WalkFrom(zones, a, b, w)
    requires NothingAfter(zones, a, MAX_ZONE_LEVELS + 1)
    ensures b in SubZones(zones, a)
    decreases |w|
  {
    var n := MAX_ZONE_LEVELS + 2;
    if |w| <= n {
      SubZonesAreShortWalks(zones, a, b);
    } else {
      var c := w[n];
      WalkReaches(zones, a, c, w[..n + 1], n);
      var v := ReachWalks(zones, a, c, n - 1);
      CutAtLastLevel(zones, a, b, v + w[n + 1..]);
    }
  }

  /** For a hierarchy of any size the answer for a zone is complete exactly when one more level would add nothing
      to it. */
  lemma CompleteIffNothingAfter(zones: Hierarchy, a: string)
    ensures (forall b :: IsBelow(zones, a, b) ==> b in SubZones(zones, a))
            <==> NothingAfter(zones, a, 33)
  {
    if forall b :: IsBelow(zones, a, b) ==> b in SubZones(zones, a) {
      var n := MAX_ZONE_LEVELS + 1;
      forall b | Reach(zones, a, b, n + 1) ensures Reach(zones, a, b, n) {
        var w := ReachWalks(zones, a, b, n + 1);
        assert IsBelow(zones, a, b);
        assert b in SubZones(zones, a);
      }
    }
    if NothingAfter(zones, a, MAX_ZONE_LEVELS + 1) {
      forall b | IsBelow(zones, a, b) ensures b in SubZones(zones, a) {
        var w :| WalkFrom(zones, a, b, w);
        CutAtLastLevel(zones, a, b, w);
      }
    }
  }

  /** Nothing has `b` below it for the first time at step `n + 1`. */
  ghost predicate NothingBefore(zones: Hierarchy, b: string, n: nat) {
    forall a :: Reach(zones, a, b, n + 1) ==> Reach(zones, a, b, n)
  }

  lemma {:induction false} CutAtFirstLevel(zones: Hierarchy, a: string, b: string, w: seq<string>)
    requires WalkFrom(zones, a, b, w)
    requires NothingBefore(zones, b, MAX_ZONE_LEVELS + 1)
    ensures a in TopZones(zones, b)
    decreases |w|
  {
    var n := MAX_ZONE_LEVELS + 2;
    if |w| <= n {
      TopZonesAreShortWalks(zones, a, b);
    } else {
      var k := |w| - 1 - n;
      WalkReaches(zones, w[k], b, w[k..], n);
      var v := ReachWalks(zones, w[k], b, n - 1);
      CutAtFirstLevel(zones, a, b, w[..k] + v);
    }
  }

  /** Upwards the answer for a zone is complete exactly when one level more would add nothing to it. */
  lemma TopsCompleteIffNothingBefore(zones: Hierarchy, b: string)
    ensures (forall a :: IsBelow(zones, a, b) ==> a in TopZones(zones, b))
            <==> NothingBefore(zones, b, 33)
  {
    if forall a :: IsBelow(zones, a, b) ==> a in TopZones(zones, b) {
      var n := MAX_ZONE_LEVELS + 1;
      forall a | Reach(zones, a, b, n + 1) ensures Reach(zones, a, b, n) {
        var w := ReachWalks(zones, a, b, n + 1);
        assert IsBelow(zones, a, b);
        assert a in TopZones(zones, b);
      }
    }
    if NothingBefore(zones, b, MAX_ZONE_LEVELS + 1) {
      forall a | IsBelow(zones, a, b) ensures a in TopZones(zones, b) {
        var w :| WalkFrom(zones, a, b, w);
        CutAtFirstLevel(zones, a, b, w);
      }
    }
  }

  // ---------------------------------------------------------------- 34 zones are too many

  function NameOf(i: nat): (name: string)
    ensures |name| == i + 1
  {
    seq(i + 1, _ => 'z')
  }

  function NamesBelow(n: nat): (names: set<string>)
    ensures forall s :: s in names ==> 1 <= |s| <= n
  {
    set i: nat | i < n :: NameOf(i)
  }

  function Following(n: nat, i: nat): nat {
    if i + 1 == n then 0 else i + 1
  }

  /** `n` zones, each the only sub zone of the one before, and the first that of the last. */
  function Circle(n: nat): Hierarchy
    requires n > 0
  {
    map s | s in NamesBelow(n) :: [NameOf(Following(n, |s| - 1))]
  }

  lemma {:induction false} CircleSize(n: nat)
    ensures |NamesBelow(n)| == n
  {
    if n > 0 {
      CircleSize(n - 1);
      assert NamesBelow(n) == NamesBelow(n - 1) + {NameOf(n - 1)};
    }
  }

  lemma CircleStep(n: nat, i: nat)
    requires i < n
    ensures NameOf(i) in Circle(n) && Circle(n)[NameOf(i)] == [NameOf(Following(n, i))]
  {
    assert NameOf(i) in NamesBelow(n);
  }

  lemma {:induction false} WalkOnCircle(n: nat, w: seq<string>, k: nat)
    requires n > 0 && IsWalk(Circle(n), w) && w[0] == NameOf(0) && k < |w| && k < n
    ensures w[k] == NameOf(k)
  {
    hide Circle, NameOf;
    if k > 0 {
      WalkOnCircle(n, w, k - 1);
      CircleStep(n, k - 1);
      assert w[k] in Circle(n)[w[k - 1]];
    }
  }

  /** A circle is a walk all the way round, and no shorter walk comes back to the first zone. */
  lemma AroundTheCircle(n: nat) returns (w: seq<string>)
    requires n > 0
    ensures WalkFrom(Circle(n), NameOf(0), NameOf(0), w)
    ensures forall v :: WalkFrom(Circle(n), NameOf(0), NameOf(0), v) ==> |v| > n
  {
    hide Circle, NameOf;
    w := seq(n + 1, i requires 0 <= i <= n => NameOf(if i == n then 0 else i));
    forall i | 0 <= i < |w| ensures w[i] in Circle(n) {
      CircleStep(n, if i == n then 0 else i);
    }
    forall i, j | 0 <= i && j == i + 1 && j < |w| ensures w[j] in Circle(n)[w[i]] {
      CircleStep(n, i);
    }
    forall v | WalkFrom(Circle(n), NameOf(0), NameOf(0), v) ensures |v| > n {
      if |v| <= n {
        WalkOnCircle(n, v, |v| - 1);
      }
    }
  }

  /** The bound is sharp: on a circle of 34 zones the first is below itself, and the answer leaves it out. */
  lemma ThirtyFourZonesAreTooMany()
    ensures var n := 34; var zones := Circle(n);
            |zones| == n && IsBelow(zones, NameOf(0), NameOf(0)) && NameOf(0) !in SubZones(zones, NameOf(0))
  {
    hide SubZones, IsWalk, NameOf, NamesBelow;
    var n := MAX_ZONE_LEVELS + 2;
    var zones := Circle(n);
    CircleSize(n);
    assert zones.Keys == NamesBelow(n);
    var w := AroundTheCircle(n);
    SubZonesAreShortWalks(zones, NameOf(0), NameOf(0));
  }
}
