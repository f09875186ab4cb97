/** Which reports about a node may arrive in any order. */
module GossipOrder {
  import opened Common
  import opened GossipNodes

  /** What a report about another node does to its record: the record-level view of `Hear`. */
  function Absorb(rec: Record, r: Report, now: int): Record {
    match r.kind
    case Alive => if r.incarnation <= rec.incarnation then rec else FreshRecord(r)
    case Leave =>
      if rec.state == Leave || r.incarnation < rec.incarnation then rec
      else rec.(incarnation := r.incarnation, state := Leave, leaveTime := Some(now))
    case _ =>
      if rec.state != Alive || r.incarnation < rec.incarnation then rec
      else rec.(incarnation := r.incarnation, state := Suspect, suspectTime := Some(now))
  }

  lemma HearAbsorbs(a: Agent, r: Report, now: int)
    requires a.uuid in a.nodes && r.uuid != a.uuid && r.uuid in a.nodes
    ensures Hear(a, r, now).uuid == a.uuid
    ensures Hear(a, r, now).nodes == a.nodes[r.uuid := Absorb(a.nodes[r.uuid], r, now)]
  {
    assert a.nodes[r.uuid := a.nodes[r.uuid]] == a.nodes;
  }

  /** Reports reach the agent one after the other, each with the time of its arrival. */
  function HearAll(a: Agent, rs: seq<(Report, int)>): Agent
    requires a.uuid in a.nodes
    decreases |rs|
  {
    if rs == [] then a
    else
      var a' := Hear(a, rs[0].0, rs[0].1);
      if a'.uuid in a'.nodes then HearAll(a', rs[1..]) else a'
  }

  /** What one learns from a table: the incarnation and the state of a node. */
  datatype Status = Status(incarnation: nat, state: State)

  function StatusOf(rec: Record): Status {
    Status(rec.incarnation, rec.state)
  }

  predicate About(r: Report, u: Uuid, incarnation: nat) {
    r.uuid == u && r.incarnation <= incarnation
  }

  predicate Says(r: Report, kind: State, incarnation: nat) {
    r.incarnation == incarnation && (r.kind == kind || (kind == Suspect && r.kind == Dead))
  }

  /** The state a record of incarnation `n` ends in, read off the bag of reports alone. */
  ghost function Settled(before: State, n: nat, bag: multiset<Report>): State {
    if before == Leave || exists r :: r in bag && Says(r, Leave, n) then Leave
    else if before == Alive && exists r :: r in bag && Says(r, Suspect, n) then Suspect
    else before
  }

  function Reports(rs: seq<(Report, int)>): seq<Report> {
    seq(|rs|, i requires 0 <= i < |rs| => rs[i].0)
  }

  lemma SettledStep(before: State, n: nat, r: Report, bag: multiset<Report>, now: int, rec: Record)
    requires r.incarnation <= n && StatusOf(rec) == Status(n, before)
    ensures StatusOf(Absorb(rec, r, now)) == Status(n, Absorb(rec, r, now).state)
    ensures Settled(Absorb(rec, r, now).state, n, bag) == Settled(before, n, multiset{r} + bag)
  {
    var both := multiset{r} + bag;
    assert r in both;
    assert forall x :: x in bag ==> x in both;
    assert forall x :: x in both ==> x == r || x in bag;
  }

  /** Reports no younger than the record leave its incarnation alone, and its final state depends on
      which reports arrived, not on when. */
  lemma {:induction false} HearAllSettles(a: Agent, rs: seq<(Report, int)>, u: Uuid)
    requires a.uuid in a.nodes && u != a.uuid && u in a.nodes
    requires forall i :: 0 <= i < |rs| ==> About(rs[i].0, u, a.nodes[u].incarnation)
    ensures var a' := HearAll(a, rs);
            && u in a'.nodes && a'.nodes.Keys == a.nodes.Keys && a'.uuid == a.uuid
            && StatusOf(a'.nodes[u]) == Status(a.nodes[u].incarnation,
                 Settled(a.nodes[u].state, a.nodes[u].incarnation, multiset(Reports(rs))))
    decreases |rs|
  {
    if rs == [] {
      assert Reports(rs) == [];
    } else {
      var r := rs[0].0;
      assert About(r, u, a.nodes[u].incarnation);
      HearAbsorbs(a, r, rs[0].1);
      var a1 := Hear(a, r, rs[0].1);
      assert Reports(rs) == [r] + Reports(rs[1..]);
      SettledStep(a.nodes[u].state, a.nodes[u].incarnation, r, multiset(Reports(rs[1..])), rs[0].1, a.nodes[u]);
      HearAllSettles(a1, rs[1..], u);
    }
  }

  /** Any two arrival orders of the same reports, none younger than the record, end the same way. */
  lemma OrderDoesNotMatter(a: Agent, rs: seq<(Report, int)>, ss: seq<(Report, int)>, u: Uuid)
    requires a.uuid in a.nodes && u != a.uuid && u in a.nodes
    requires forall i :: 0 <= i < |rs| ==> About(rs[i].0, u, a.nodes[u].incarnation)
    requires multiset(Reports(rs)) == multiset(Reports(ss))
    ensures u in HearAll(a, rs).nodes && u in HearAll(a, ss).nodes
    ensures StatusOf(HearAll(a, rs).nodes[u]) == StatusOf(HearAll(a, ss).nodes[u])
  {
    forall i | 0 <= i < |ss| ensures About(ss[i].0, u, a.nodes[u].incarnation) {
      assert Reports(ss)[i] in multiset(Reports(ss));
      assert ss[i].0 in Reports(rs);
    }
    HearAllSettles(a, rs, u);
    HearAllSettles(a, ss, u);
  }

  /** Hearing any of the reports again, any number of times, changes nothing. */
  lemma ReplayChangesNothing(a: Agent, rs: seq<(Report, int)>, again: seq<(Report, int)>, u: Uuid)
    requires a.uuid in a.nodes && u != a.uuid && u in a.nodes
    requires forall i :: 0 <= i < |rs| ==> About(rs[i].0, u, a.nodes[u].incarnation)
    requires forall i :: 0 <= i < |again| ==> again[i].0 in Reports(rs)
    ensures var a' := HearAll(a, rs);
            && a'.uuid in a'.nodes && u in a'.nodes && u in HearAll(a', again).nodes
            && StatusOf(HearAll(a', again).nodes[u]) == StatusOf(a'.nodes[u])
  {
    var n := a.nodes[u].incarnation;
    HearAllSettles(a, rs, u);
    var a' := HearAll(a, rs);
    forall i | 0 <= i < |again| ensures About(again[i].0, u, n) {
      assert again[i].0 in Reports(rs);
    }
    HearAllSettles(a', again, u);
    assert forall r :: r in multiset(Reports(again)) ==> r in Reports(again) && r in multiset(Reports(rs));
  }

  // ---------------------------------------------------------------- younger reports

  /** The part of `Absorb` that shows in the status. */
  function Believe(st: Status, r: Report): Status {
    match r.kind
    case Alive => if r.incarnation <= st.incarnation then st else Status(r.incarnation, Alive)
    case Leave => if st.state == Leave || r.incarnation < st.incarnation then st else Status(r.incarnation, Leave)
    case _ => if st.state != Alive || r.incarnation < st.incarnation then st else Status(r.incarnation, Suspect)
  }

  lemma AbsorbBelieves(rec: Record, r: Report, now: int)
    ensures StatusOf(Absorb(rec, r, now)) == Believe(StatusOf(rec), r)
  {
  }

  predicate OneWayClash(st: Status, x: Report, y: Report) {
    var n := st.incarnation;
    match x.kind
    case Alive =>
      && y.kind != Alive && n < x.incarnation <= y.incarnation
      && (if y.kind == Leave then st.state == Leave else st.state != Alive)
    case Leave =>
      && n <= x.incarnation && n <= y.incarnation
      && (if y.kind == Leave then st.state != Leave && x.incarnation != y.incarnation
          else y.kind != Alive && st.state == Alive && x.incarnation < y.incarnation)
    case _ =>
      && y.kind in {Suspect, Dead} && st.state == Alive
      && n <= x.incarnation && n <= y.incarnation && x.incarnation != y.incarnation
  }

  /** Whether two reports about another node clash on this record, so that their order shows: two suspicions
      (or two departures) that would both be believed with different incarnations, a departure believed only
      if it comes before a younger suspicion, or a younger "alive" that reopens a closed record for the other. */
  predicate Clash(st: Status, x: Report, y: Report) {
    OneWayClash(st, x, y) || OneWayClash(st, y, x)
  }

  lemma BelieveClash(st: Status, x: Report, y: Report)
    ensures Believe(Believe(st, x), y) == Believe(Believe(st, y), x) <==> !Clash(st, x, y)
  {
  }

  /** Two reports may be swapped exactly when they do not clash. */
  lemma SwapIffNoClash(rec: Record, x: Report, y: Report, now: int, later: int)
    ensures StatusOf(Absorb(Absorb(rec, x, now), y, later)) == StatusOf(Absorb(Absorb(rec, y, now), x, later))
       <==> !Clash(StatusOf(rec), x, y)
  {
    hide Absorb, Believe, Clash;
    AbsorbBelieves(rec, x, now);
    AbsorbBelieves(rec, y, now);
    AbsorbBelieves(Absorb(rec, x, now), y, later);
    AbsorbBelieves(Absorb(rec, y, now), x, later);
    BelieveClash(StatusOf(rec), x, y);
  }
}
