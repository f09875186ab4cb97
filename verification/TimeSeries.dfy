/** Samples rolled up into minutes, and minutes into hours (add_value and archive_minute of opsbro/ts.py). */
module TimeSeries {
  import opened Common

  /** `avg` is set when a minute is archived, and in an hour with every minute. */
  datatype Entry = Entry(start: int, sum: real, nb: nat, min: Option<real>, max: Option<real>,
                         values: seq<Option<real>>, avg: Option<real>)

  /** The two entries of a key that are kept in memory. */
  datatype Series = Series(minute: Option<Entry>, hour: Option<Entry>)

  function Empty(start: int): (e: Entry)
    ensures |e.values| == 60
  {
    Entry(start, 0.0, 0, None, None, seq(60, _ => None), None)
  }

  predicate Valid(s: Series) {
    (s.minute.Some? ==> |s.minute.value.values| == 60) && (s.hour.Some? ==> |s.hour.value.values| == 60)
  }

  function MinuteOf(t: int): int {
    t / 60 * 60
  }

  function SecondOf(t: int): (second: nat)
    ensures second < 60 && t == MinuteOf(t) + second
  {
    t % 60
  }

  function HourOf(t: int): int {
    t / 3600 * 3600
  }

  /** A value and zero are both "not set" for the tests of add_value. */
  predicate Unset(x: Option<real>) {
    x.None? || x.value == 0.0
  }

  function Insert(e: Entry, second: nat, v: real): (e': Entry)
    requires |e.values| == 60 && second < 60
    ensures |e'.values| == 60
  {
    e.(values := e.values[second := Some(v)],
       min := if Unset(e.min) || v < e.min.value then Some(v) else e.min,
       max := if Unset(e.max) || v > e.max.value then Some(v) else e.max,
       sum := e.sum + v,
       nb := e.nb + 1)
  }

  function AvgOf(e: Entry): Option<real> {
    if e.nb != 0 then Some(e.sum / e.nb as real) else None
  }

  /** x < y and x > y where nothing is below every number. */
  predicate Less(x: Option<real>, y: real) {
    x.None? || x.value < y
  }

  predicate Greater(x: Option<real>, y: real) {
    x.Some? && x.value > y
  }

  lemma SlotInHour(minute: int)
    requires minute % 60 == 0
    ensures 0 <= (minute - HourOf(minute)) / 60 < 60
    ensures minute == HourOf(minute) + 60 * ((minute - HourOf(minute)) / 60)
  {
    var h := minute / 3600;
    var m := minute / 60;
    assert minute == 60 * m && HourOf(minute) == 3600 * h && 0 <= minute - 3600 * h < 3600;
    assert (60 * (m - 60 * h)) / 60 == m - 60 * h;
  }

  /** The minute `e` added to the hour entry `h`. */
  function Absorb(h: Entry, e: Entry): (h': Entry)
    requires |h.values| == 60 && e.start % 60 == 0 && h.start == HourOf(e.start)
    ensures |h'.values| == 60
  {
    SlotInHour(e.start);
    var h1 := h.(min := if h.min.None? || Less(e.min, h.min.value) then e.min else h.min,
                 max := if h.max.None? || Greater(e.max, h.max.value) then e.max else h.max);
    var avg := AvgOf(e);
    if avg.None? then h1
    else
      var sum, nb := h.sum + avg.value, h.nb + 1;
      h1.(nb := nb, sum := sum, values := h.values[(e.start - h.start) / 60 := avg], avg := Some(sum / nb as real))
  }

  /** The hour entry after the minute `e` is archived; the entry of another hour is replaced. */
  function Archive(hour: Option<Entry>, e: Entry): (h: Entry)
    requires (hour.Some? ==> |hour.value.values| == 60) && e.start % 60 == 0
    ensures |h.values| == 60
  {
    var h := hour.GetOr(Empty(0));
    Absorb(if HourOf(e.start) != h.start then Empty(HourOf(e.start)) else h, e)
  }

  /** One sample added; the minute is archived when the sample belongs to another one. */
  function AddSample(s: Series, t: int, v: real): (s': Series)
    requires Valid(s) && (s.minute.Some? ==> s.minute.value.start % 60 == 0)
    ensures Valid(s') && s'.minute.Some? && s'.minute.value.start == MinuteOf(t)
  {
    var e := s.minute.GetOr(Empty(0));
    if MinuteOf(t) == e.start then Series(Some(Insert(e, SecondOf(t), v)), s.hour)
    else
      Series(Some(Insert(Empty(MinuteOf(t)), SecondOf(t), v)),
             if e.start != 0 then Some(Archive(s.hour, e)) else s.hour)
  }

  /** The keys of the database: a minute, or an hour, of a series. */
  datatype DbKey = MinuteKey(name: string, minute: int) | HourKey(name: string, hour: int)

  /** What archiving the minute `e` writes to the database: the minute with its average and, when the hour changes,
      the entry of the hour that is over, which goes under the key of the hour that begins. */
  function Written(name: string, hour: Option<Entry>, e: Entry): map<DbKey, Entry> {
    var h := hour.GetOr(Empty(0));
    map[MinuteKey(name, e.start) := e.(avg := AvgOf(e))]
    + if HourOf(e.start) != h.start && h.start != 0 then map[HourKey(name, HourOf(e.start)) := h] else map[]
  }

  /** The same, one write after the other. */
  lemma WrittenInSteps(db: map<DbKey, Entry>, name: string, hour: Option<Entry>, e: Entry)
    ensures var h, hkey := hour.GetOr(Empty(0)), HourKey(name, HourOf(e.start));
            var db1 := db[MinuteKey(name, e.start) := e.(avg := AvgOf(e))];
            db + Written(name, hour, e) == if HourOf(e.start) != h.start && h.start != 0 then db1[hkey := h] else db1
  {
  }

  function WrittenBy(name: string, s: Series, t: int): map<DbKey, Entry> {
    var e := s.minute.GetOr(Empty(0));
    if MinuteOf(t) != e.start && e.start != 0 then Written(name, s.hour, e) else map[]
  }

  // ---------------------------------------------------------------- the backend

  class TSBackend {
    var minutes: map<string, Entry>
    var hours: map<string, Entry>
    var db: map<DbKey, Entry>

    ghost predicate Ok()
      reads this
    {
      (forall k :: k in minutes ==> |minutes[k].values| == 60 && minutes[k].start % 60 == 0)
      && (forall k :: k in hours ==> |hours[k].values| == 60)
    }

    function SeriesOf(key: string): Series
      reads this
    {
      Series(if key in minutes then Some(minutes[key]) else None, if key in hours then Some(hours[key]) else None)
    }

    constructor ()
      ensures Ok() && db == map[] && forall k :: SeriesOf(k) == Series(None, None)
    {
      minutes, hours, db := map[], map[], map[];
    }

    method AddValue(t: int, key: string, v: real)
      requires Ok()
      modifies this
      ensures Ok() && SeriesOf(key) == AddSample(old(SeriesOf(key)), t, v)
      ensures forall k :: k != key ==> SeriesOf(k) == old(SeriesOf(k))
      ensures db == old(db) + WrittenBy(key, old(SeriesOf(key)), t)
    {
      var e := Empty(0);
      if key in minutes {
        e := minutes[key];
      }
      var start, second := t / 60 * 60, t % 60;
      if start != e.start {
        if e.start != 0 {
          ArchiveMinute(e, key);
        }
        e := Empty(start);
      }
      e := e.(values := e.values[second := Some(v)]);
      if Unset(e.min) || v < e.min.value {
        e := e.(min := Some(v));
      }
      if Unset(e.max) || v > e.max.value {
        e := e.(max := Some(v));
      }
      e := e.(sum := e.sum + v, nb := e.nb + 1);
      minutes := minutes[key := e];
    }

    method ArchiveMinute(e: Entry, key: string)
      requires Ok() && e.start % 60 == 0
      modifies this`hours, this`db
      ensures Ok() && key in hours
      ensures hours == old(hours)[key := Archive(old(SeriesOf(key)).hour, e)]
      ensures db == old(db) + Written(key, old(SeriesOf(key)).hour, e)
    {
      WrittenInSteps(db, key, SeriesOf(key).hour, e);
      hide Written;
      var avg: Option<real> := None;
      if e.nb != 0 {
        avg := Some(e.sum / e.nb as real);
      }
      db := db[MinuteKey(key, e.start) := e.(avg := avg)];
      var hour := e.start / 3600 * 3600;
      var h := Empty(0);
      if key in hours {
        h := hours[key];
      }
      if hour != h.start {
        if h.start != 0 {
          db := db[HourKey(key, hour) := h];
        }
        h := Empty(hour);
      }
      var least, most := h.min, h.max;
      if least.None? || Less(e.min, least.value) {
        h := h.(min := e.min);
      }
      if most.None? || Greater(e.max, most.value) {
        h := h.(max := e.max);
      }
      if avg.Some? {
        h := h.(nb := h.nb + 1, sum := h.sum + avg.value);
        SlotInHour(e.start);
        var slot := (e.start - hour) / 60;
        h := h.(values := h.values[slot := avg]);
        h := h.(avg := Some(h.sum / h.nb as real));
      }
      hours := hours[key := h];
    }
  }

  // ---------------------------------------------------------------- computed from the samples

  datatype Sample = Sample(t: int, v: real)

  /** Samples later than the first minute of the epoch, in the order of their times. */
  ghost predicate Proper(samples: seq<Sample>) {
    && (forall i :: 0 <= i < |samples| ==> samples[i].t >= 60)
    && (forall i, j :: 0 <= i < j < |samples| ==> samples[i].t <= samples[j].t)
  }

  function AddAll(samples: seq<Sample>): (s: Series)
    ensures Valid(s) && (s.minute.Some? ==> s.minute.value.start % 60 == 0)
    ensures samples != [] ==> s.minute.Some? && s.minute.value.start == MinuteOf(samples[|samples| - 1].t)
  {
    if samples == [] then Series(None, None)
    else AddSample(AddAll(samples[..|samples| - 1]), samples[|samples| - 1].t, samples[|samples| - 1].v)
  }

  /** The values of the samples of one minute. */
  function InMinute(samples: seq<Sample>, minute: int): seq<real> {
    if samples == [] then []
    else
      var last := samples[|samples| - 1];
      InMinute(samples[..|samples| - 1], minute) + if MinuteOf(last.t) == minute then [last.v] else []
  }

  function Sum(vs: seq<real>): real {
    if vs == [] then 0.0 else Sum(vs[..|vs| - 1]) + vs[|vs| - 1]
  }

  function Average(vs: seq<real>): real
    requires vs != []
  {
    Sum(vs) / |vs| as real
  }

  datatype Side = Least | Greatest

  predicate NoFurther(x: real, y: real, side: Side) {
    if side.Least? then x <= y else x >= y
  }

  /** The least of the values, or the greatest. */
  ghost predicate IsExtreme(x: Option<real>, vs: seq<real>, side: Side) {
    if vs == [] then x.None? else x.Some? && x.value in vs && forall v :: v in vs ==> NoFurther(x.value, v, side)
  }

  /** A value below zero, or above. */
  predicate Beyond(v: real, side: Side) {
    if side.Least? then v < 0.0 else v > 0.0
  }

  function AfterZero(vs: seq<real>): seq<real> {
    if vs == [] || vs[|vs| - 1] == 0.0 then [] else AfterZero(vs[..|vs| - 1]) + [vs[|vs| - 1]]
  }

  /** The values of which a minute keeps the least, or the greatest: zero counts as no value, so the next one takes
      its place, unless there is one beyond zero. */
  ghost function Seen(vs: seq<real>, side: Side): seq<real> {
    if exists v :: v in vs && Beyond(v, side) then vs
    else if vs != [] && AfterZero(vs) == [] then [0.0]
    else AfterZero(vs)
  }

  /** The last value that came in at time `t`. */
  function LastAt(samples: seq<Sample>, t: int): Option<real> {
    if samples == [] then None
    else
      var last := samples[|samples| - 1];
      if last.t == t then Some(last.v) else LastAt(samples[..|samples| - 1], t)
  }

  ghost predicate SecondsMatch(e: Entry, samples: seq<Sample>) {
    |e.values| == 60 && forall i :: 0 <= i < 60 ==> e.values[i] == LastAt(samples, e.start + i)
  }

  /** The minute in memory is that of the samples of the last minute. */
  ghost predicate MinuteMatches(e: Entry, samples: seq<Sample>) {
    var vs := InMinute(samples, e.start);
    && e.nb == |vs| && e.sum == Sum(vs)
    && IsExtreme(e.min, Seen(vs, Least), Least) && IsExtreme(e.max, Seen(vs, Greatest), Greatest)
  }

  /** The average of a minute that is over, if it has samples. */
  function Slot(samples: seq<Sample>, minute: int, now: int): Option<real> {
    var vs := InMinute(samples, minute);
    if minute < now && vs != [] then Some(Average(vs)) else None
  }

  /** The values of the samples of one hour, up to the minute that is not over. */
  function InHour(samples: seq<Sample>, hour: int, now: int): seq<real> {
    if samples == [] then []
    else
      var last := samples[|samples| - 1];
      InHour(samples[..|samples| - 1], hour, now)
      + if HourOf(last.t) == hour && MinuteOf(last.t) < now then [last.v] else []
  }

  function CountSome(slots: seq<Option<real>>): nat {
    if slots == [] then 0 else CountSome(slots[..|slots| - 1]) + if slots[|slots| - 1].Some? then 1 else 0
  }

  function SumSome(slots: seq<Option<real>>): real {
    if slots == [] then 0.0 else SumSome(slots[..|slots| - 1]) + slots[|slots| - 1].GetOr(0.0)
  }

  /** The minute that a slot of the hour stands for. */
  function SlotStart(hour: int, i: int): int {
    hour + 60 * i
  }

  ghost predicate SlotsMatch(h: Entry, samples: seq<Sample>, now: int) {
    |h.values| == 60 && forall i :: 0 <= i < 60 ==> h.values[i] == Slot(samples, SlotStart(h.start, i), now)
  }

  ghost predicate TotalsMatch(h: Entry) {
    && h.nb == CountSome(h.values) && h.sum == SumSome(h.values)
    && h.avg == AvgOf(h)
  }

  /** The value counts for some minute of the hour that is over. */
  ghost predicate SeenInHour(v: real, samples: seq<Sample>, hour: int, now: int, side: Side) {
    exists m :: HourOf(m) == hour && m < now && v in Seen(InMinute(samples, m), side)
  }

  ghost predicate HourExtreme(x: Option<real>, samples: seq<Sample>, hour: int, now: int, side: Side) {
    && (x.Some? ==> SeenInHour(x.value, samples, hour, now, side))
    && forall v :: SeenInHour(v, samples, hour, now, side) ==> x.Some? && NoFurther(x.value, v, side)
  }

  /** The hour entry against the samples of the minutes before `now`. */
  ghost predicate HourFits(h: Entry, samples: seq<Sample>, now: int) {
    && HourExtreme(h.min, samples, h.start, now, Least) && HourExtreme(h.max, samples, h.start, now, Greatest)
    && SlotsMatch(h, samples, now) && TotalsMatch(h)
  }

  /** It is the hour of the last minute that is over. */
  ghost predicate IsLastHour(hour: int, samples: seq<Sample>, now: int) {
    && InHour(samples, hour, now) != []
    && forall i :: 0 <= i < |samples| && MinuteOf(samples[i].t) < now ==> HourOf(samples[i].t) <= hour
  }

  ghost predicate SomeOver(samples: seq<Sample>, now: int) {
    exists i :: 0 <= i < |samples| && MinuteOf(samples[i].t) < now
  }

  ghost predicate SeriesMatches(s: Series, samples: seq<Sample>) {
    if samples == [] then s == Series(None, None)
    else
      var now := MinuteOf(samples[|samples| - 1].t);
      && s.minute.Some? && s.minute.value.start == now
      && MinuteMatches(s.minute.value, samples) && SecondsMatch(s.minute.value, samples)
      && (s.hour.Some? <==> SomeOver(samples, now))
      && (s.hour.Some? ==> HourFits(s.hour.value, samples, now) && IsLastHour(s.hour.value.start, samples, now))
  }

  // ---------------------------------------------------------------- one minute

  lemma TimesAreOrdered(t: int, u: int)
    requires t <= u
    ensures MinuteOf(t) <= MinuteOf(u) && HourOf(t) <= HourOf(u) && MinuteOf(t) <= t < MinuteOf(t) + 60
    ensures MinuteOf(t) % 60 == 0 && HourOf(MinuteOf(t)) == HourOf(t)
  {
    Quotients(t, u, 60);
    Quotients(t, u, 3600);
    HourOfMinute(t);
  }

  lemma HourOfMinute(t: int)
    ensures HourOf(MinuteOf(t)) == HourOf(t)
  {
    var m, h := t / 60, t / 3600;
    assert 60 * m <= t < 60 * m + 60 && 3600 * h <= t < 3600 * h + 3600;
    assert 60 * h <= m < 60 * h + 60;
    InHourRange(60 * m, h);
  }

  lemma InHourRange(x: int, h: int)
    requires 3600 * h <= x < 3600 * h + 3600
    ensures x / 3600 == h
  {
  }

  lemma Quotients(t: int, u: int, p: int)
    requires t <= u && p > 0
    ensures t / p <= u / p
  {
    assert p * (t / p) <= t && u < p * (u / p + 1);
    Products(p, t / p, u / p + 1);
  }

  lemma Products(p: int, a: int, b: int)
    requires p > 0
    ensures a >= b ==> p * a >= p * b
  {
    if a >= b {
      assert p * (a - b) >= 0;
    }
  }

  lemma InMinutePush(samples: seq<Sample>, x: Sample, minute: int)
    ensures InMinute(samples + [x], minute)
         == if MinuteOf(x.t) == minute then InMinute(samples, minute) + [x.v] else InMinute(samples, minute)
  {
    assert (samples + [x])[..|samples|] == samples;
  }

  lemma InHourPush(samples: seq<Sample>, x: Sample, hour: int, now: int)
    ensures InHour(samples + [x], hour, now)
         == if HourOf(x.t) == hour && MinuteOf(x.t) < now then InHour(samples, hour, now) + [x.v]
            else InHour(samples, hour, now)
  {
    assert (samples + [x])[..|samples|] == samples;
  }

  lemma SumPush(vs: seq<real>, v: real)
    ensures Sum(vs + [v]) == Sum(vs) + v
  {
    assert (vs + [v])[..|vs|] == vs;
  }

  lemma {:induction false} AfterZeroIs(vs: seq<real>)
    ensures forall v :: v in AfterZero(vs) ==> v in vs && v != 0.0
    ensures 0.0 !in vs ==> AfterZero(vs) == vs
  {
    if vs != [] {
      AfterZeroIs(vs[..|vs| - 1]);
      assert vs == vs[..|vs| - 1] + [vs[|vs| - 1]];
    }
  }

  lemma AfterZeroPush(vs: seq<real>, v: real)
    ensures AfterZero(vs + [v]) == if v == 0.0 then [] else AfterZero(vs) + [v]
  {
    assert (vs + [v])[..|vs|] == vs;
  }

  /** What add_value keeps of one side after the value `v`. */
  function Kept(x: Option<real>, v: real, side: Side): Option<real> {
    if Unset(x) || !NoFurther(x.value, v, side) then Some(v) else x
  }

  lemma KeptIsSeen(x: Option<real>, vs: seq<real>, v: real, side: Side)
    requires IsExtreme(x, Seen(vs, side), side)
    ensures IsExtreme(Kept(x, v, side), Seen(vs + [v], side), side)
  {
    AfterZeroIs(vs);
    AfterZeroPush(vs, v);
    hide AfterZero;
    var more := vs + [v];
    assert more[|vs|] == v && forall w :: w in more <==> w in vs || w == v;
  }

  /** A sample of the minute in memory. */
  lemma InsertMatches(e: Entry, samples: seq<Sample>, x: Sample)
    requires |e.values| == 60 && MinuteMatches(e, samples) && MinuteOf(x.t) == e.start
    ensures MinuteMatches(Insert(e, SecondOf(x.t), x.v), samples + [x])
  {
    var vs := InMinute(samples, e.start);
    assert Insert(e, SecondOf(x.t), x.v).min == Kept(e.min, x.v, Least);
    assert Insert(e, SecondOf(x.t), x.v).max == Kept(e.max, x.v, Greatest);
    hide InMinute, Sum, IsExtreme, Seen, Kept;
    InMinutePush(samples, x, e.start);
    SumPush(vs, x.v);
    KeptIsSeen(e.min, vs, x.v, Least);
    KeptIsSeen(e.max, vs, x.v, Greatest);
  }

  lemma {:induction false} NoneInMinute(samples: seq<Sample>, minute: int)
    requires forall i :: 0 <= i < |samples| ==> MinuteOf(samples[i].t) != minute
    ensures InMinute(samples, minute) == []
  {
    if samples != [] {
      NoneInMinute(samples[..|samples| - 1], minute);
    }
  }

  lemma EmptyMatches(samples: seq<Sample>, minute: int)
    requires InMinute(samples, minute) == []
    ensures MinuteMatches(Empty(minute), samples)
  {
  }

  // ---------------------------------------------------------------- one hour

  /** A sample of a minute that is not over changes nothing in what the hour is computed from. */
  lemma HourIgnores(h: Entry, samples: seq<Sample>, x: Sample, now: int)
    requires HourFits(h, samples, now) && MinuteOf(x.t) >= now
    ensures HourFits(h, samples + [x], now)
    ensures IsLastHour(h.start, samples, now) ==> IsLastHour(h.start, samples + [x], now)
  {
    hide InMinute, InHour, MinuteOf, CountSome, SumSome;
    InHourPush(samples, x, h.start, now);
    forall m | m < now ensures InMinute(samples + [x], m) == InMinute(samples, m) {
      InMinutePush(samples, x, m);
    }
    SameSeen(samples, samples + [x], h.start, now);
  }

  lemma SameSeen(samples: seq<Sample>, others: seq<Sample>, hour: int, now: int)
    requires forall m :: m < now ==> InMinute(others, m) == InMinute(samples, m)
    ensures forall v, side :: SeenInHour(v, others, hour, now, side) <==> SeenInHour(v, samples, hour, now, side)
  {
    hide InMinute, HourOf, Seen;
  }

  /** When a minute is over, what counts for it counts for its hour. */
  lemma SeenGrows(samples: seq<Sample>, now: int, later: int)
    requires now < later && forall i :: 0 <= i < |samples| ==> MinuteOf(samples[i].t) <= now
    ensures forall v, side :: SeenInHour(v, samples, HourOf(now), later, side)
              <==> SeenInHour(v, samples, HourOf(now), now, side) || v in Seen(InMinute(samples, now), side)
  {
    forall m | now < m ensures InMinute(samples, m) == [] {
      NoneInMinute(samples, m);
    }
    hide InMinute, HourOf, MinuteOf;
    forall side ensures Seen([], side) == [] {
    }
    hide Seen;
  }

  lemma HourAbsorbs(x: Option<real>, y: Option<real>, samples: seq<Sample>, now: int, later: int, side: Side)
    requires now < later && forall i :: 0 <= i < |samples| ==> MinuteOf(samples[i].t) <= now
    requires HourExtreme(x, samples, HourOf(now), now, side)
    requires y.Some? && IsExtreme(y, Seen(InMinute(samples, now), side), side)
    ensures var z := if x.None? || !NoFurther(x.value, y.value, side) then y else x;
            HourExtreme(z, samples, HourOf(now), later, side)
  {
    SeenGrows(samples, now, later);
    hide InMinute, HourOf, MinuteOf, Seen, SeenInHour;
  }

  /** While every sample is at most of minute `now`, letting that minute be over adds its samples. */
  lemma {:induction false} InHourGrows(samples: seq<Sample>, now: int, later: int)
    requires Proper(samples) && now < later && forall i :: 0 <= i < |samples| ==> MinuteOf(samples[i].t) <= now
    requires now % 60 == 0
    ensures InHour(samples, HourOf(now), later) == InHour(samples, HourOf(now), now) + InMinute(samples, now)
  {
    if samples != [] {
      var front, last := samples[..|samples| - 1], samples[|samples| - 1];
      assert samples == front + [last];
      InHourGrows(front, now, later);
      TimesAreOrdered(last.t, last.t);
      if MinuteOf(last.t) < now {
        forall i | 0 <= i < |front| ensures MinuteOf(front[i].t) != now {
          TimesAreOrdered(samples[i].t, last.t);
        }
        NoneInMinute(front, now);
      }
      hide InHour, InMinute;
      InHourPush(front, last, HourOf(now), later);
      InHourPush(front, last, HourOf(now), now);
      InMinutePush(front, last, now);
    }
  }

  lemma {:induction false} CountUpdate(slots: seq<Option<real>>, k: nat, v: real)
    requires k < |slots| && slots[k].None?
    ensures CountSome(slots[k := Some(v)]) == CountSome(slots) + 1
    ensures SumSome(slots[k := Some(v)]) == SumSome(slots) + v
    decreases |slots|
  {
    var n := |slots| - 1;
    var after := slots[k := Some(v)];
    if k < n {
      CountUpdate(slots[..n], k, v);
      assert after[..n] == slots[..n][k := Some(v)];
    } else {
      assert after[..n] == slots[..n];
    }
  }

  /** A slot other than that of `now` stays as it is when `now` is over. */
  lemma OtherSlot(samples: seq<Sample>, m: int, now: int, later: int)
    requires now < later && m != now && forall i :: 0 <= i < |samples| ==> MinuteOf(samples[i].t) <= now
    ensures Slot(samples, m, later) == Slot(samples, m, now)
  {
    hide InMinute, MinuteOf, Average;
    if m > now {
      NoneInMinute(samples, m);
    }
  }

  /** All the slots but that of `now` are left alone when `now` is over. */
  lemma {:induction false} SlotsGrow(h: Entry, samples: seq<Sample>, k: nat, now: int, later: int)
    requires now < later && k < 60 && now == SlotStart(h.start, k)
    requires forall i :: 0 <= i < |samples| ==> MinuteOf(samples[i].t) <= now
    requires SlotsMatch(h, samples, now) && InMinute(samples, now) != []
    ensures h.values[k].None?
    ensures SlotsMatch(h.(values := h.values[k := Some(Average(InMinute(samples, now)))]), samples, later)
  {
    var avg := Some(Average(InMinute(samples, now)));
    assert Slot(samples, now, now) == None && Slot(samples, now, later) == avg;
    hide Average, InMinute, MinuteOf, Slot, SlotStart;
    assert h.values[k] == Slot(samples, SlotStart(h.start, k), now);
    var values := h.values[k := avg];
    forall i | 0 <= i < 60 ensures values[i] == Slot(samples, SlotStart(h.start, i), later) {
      if i != k {
        OtherStart(h.start, i, k);
        OtherSlot(samples, SlotStart(h.start, i), now, later);
      }
    }
  }

  lemma OtherStart(hour: int, i: int, k: int)
    requires i != k
    ensures SlotStart(hour, i) != SlotStart(hour, k)
  {
  }

  lemma AbsorbFields(h: Entry, e: Entry)
    requires |h.values| == 60 && e.start % 60 == 0 && h.start == HourOf(e.start) && e.nb != 0
    ensures 0 <= (e.start - h.start) / 60 < 60
    ensures var h' := Absorb(h, e);
            && h'.start == h.start
            && h'.values == h.values[(e.start - h.start) / 60 := Some(e.sum / e.nb as real)]
            && h'.nb == h.nb + 1 && h'.sum == h.sum + e.sum / e.nb as real && h'.avg == AvgOf(h')
            && (e.min.Some? ==> h'.min == if h.min.None? || e.min.value < h.min.value then e.min else h.min)
            && (e.max.Some? ==> h'.max == if h.max.None? || e.max.value > h.max.value then e.max else h.max)
  {
    SlotInHour(e.start);
  }

  /** A minute that is over is added to its hour. */
  lemma {:induction false} AbsorbFits(h: Entry, e: Entry, samples: seq<Sample>, later: int)
    requires Proper(samples) && forall i :: 0 <= i < |samples| ==> MinuteOf(samples[i].t) <= e.start
    requires e.start < later && e.start % 60 == 0 && h.start == HourOf(e.start)
    requires MinuteMatches(e, samples) && InMinute(samples, e.start) != [] && HourFits(h, samples, e.start)
    ensures |h.values| == 60 && HourFits(Absorb(h, e), samples, later) && InHour(samples, h.start, later) != []
  {
    var now := e.start;
    var vs := InMinute(samples, now);
    hide InMinute, InHour, CountSome, SumSome, Slot, HourOf, MinuteOf, Sum, Absorb, SlotsMatch,
         IsExtreme, HourExtreme, Seen, Proper;
    assert e.min.Some? && e.max.Some? by { NotEmptyHasBoth(e, vs); }
    SlotInHour(now);
    SlotsGrow(h, samples, (now - h.start) / 60, now, later);
    InHourGrows(samples, now, later);
    HourAbsorbs(h.min, e.min, samples, now, later, Least);
    HourAbsorbs(h.max, e.max, samples, now, later, Greatest);
    SlotCount(h, samples, now);
    AbsorbFields(h, e);
    var k := (now - h.start) / 60;
    CountUpdate(h.values, k, Average(vs));
    SameSlots(h.(values := h.values[k := Some(Average(vs))]), Absorb(h, e), samples, later);
  }

  /** A minute without a sample, which add_value never archives, would leave the hour without a least value, since
      nothing is below every number, and otherwise as it is. */
  lemma EmptyMinuteIsBelow(h: Entry, e: Entry)
    requires |h.values| == 60 && e.start % 60 == 0 && h.start == HourOf(e.start)
    requires e.nb == 0 && e.min.None? && e.max.None?
    ensures Absorb(h, e) == h.(min := None, max := h.max)
  {
  }

  lemma NotEmptyHasBoth(e: Entry, vs: seq<real>)
    requires vs != [] && IsExtreme(e.min, Seen(vs, Least), Least) && IsExtreme(e.max, Seen(vs, Greatest), Greatest)
    ensures e.min.Some? && e.max.Some?
  {
  }

  lemma SlotCount(h: Entry, samples: seq<Sample>, now: int)
    requires SlotsMatch(h, samples, now)
    ensures |h.values| == 60
  {
  }

  lemma SameSlots(g: Entry, h: Entry, samples: seq<Sample>, now: int)
    requires SlotsMatch(g, samples, now) && g.start == h.start && g.values == h.values
    ensures SlotsMatch(h, samples, now)
  {
  }

  lemma {:induction false} NothingOver(samples: seq<Sample>, hour: int, now: int)
    requires forall i :: 0 <= i < |samples| ==> HourOf(samples[i].t) != hour || MinuteOf(samples[i].t) >= now
    ensures InHour(samples, hour, now) == []
  {
    if samples != [] {
      NothingOver(samples[..|samples| - 1], hour, now);
    }
  }

  lemma {:induction false} SomethingOver(samples: seq<Sample>, hour: int, now: int) returns (i: nat)
    requires InHour(samples, hour, now) != []
    ensures i < |samples| && HourOf(samples[i].t) == hour && MinuteOf(samples[i].t) < now
  {
    var last := samples[|samples| - 1];
    if HourOf(last.t) == hour && MinuteOf(last.t) < now {
      i := |samples| - 1;
    } else {
      i := SomethingOver(samples[..|samples| - 1], hour, now);
    }
  }

  lemma {:induction false} AllNone(k: nat)
    ensures CountSome(seq(k, _ => None)) == 0 && SumSome(seq(k, _ => None)) == 0.0
  {
    var slots: seq<Option<real>> := seq(k, _ => None);
    if k > 0 {
      AllNone(k - 1);
      assert slots[..k - 1] == seq(k - 1, _ => None);
    }
  }

  lemma HourOfSlot(hour: int, i: int)
    requires hour % 3600 == 0 && 0 <= i < 60
    ensures HourOf(SlotStart(hour, i)) == hour
  {
  }

  lemma MinuteIsEmpty(samples: seq<Sample>, hour: int, minute: int, i: int)
    requires hour % 3600 == 0 && 0 <= i < 60 && SlotStart(hour, i) < minute
    requires forall k :: 0 <= k < |samples| ==> HourOf(samples[k].t) != hour || MinuteOf(samples[k].t) >= minute
    ensures InMinute(samples, SlotStart(hour, i)) == []
  {
    HourOfSlot(hour, i);
    hide HourOf, MinuteOf, InMinute;
    forall k | 0 <= k < |samples| ensures MinuteOf(samples[k].t) != SlotStart(hour, i) {
      TimesAreOrdered(samples[k].t, samples[k].t);
    }
    NoneInMinute(samples, SlotStart(hour, i));
  }

  lemma NothingSeen(samples: seq<Sample>, hour: int, minute: int)
    requires forall i :: 0 <= i < |samples| ==> HourOf(samples[i].t) != hour || MinuteOf(samples[i].t) >= minute
    ensures forall v, side :: !SeenInHour(v, samples, hour, minute, side)
  {
    forall m | HourOf(m) == hour && m < minute ensures InMinute(samples, m) == [] {
      forall k | 0 <= k < |samples| ensures MinuteOf(samples[k].t) != m {
        HourOfMinute(samples[k].t);
      }
      NoneInMinute(samples, m);
    }
    hide InMinute, HourOf, MinuteOf;
  }

  /** A fresh entry fits an hour of which nothing is over. */
  lemma EmptyFits(samples: seq<Sample>, hour: int, minute: int)
    requires hour % 3600 == 0
    requires forall i :: 0 <= i < |samples| ==> HourOf(samples[i].t) != hour || MinuteOf(samples[i].t) >= minute
    ensures HourFits(Empty(hour), samples, minute)
  {
    hide HourOf, MinuteOf, InMinute, InHour, CountSome, SumSome;
    NothingOver(samples, hour, minute);
    AllNone(60);
    assert Empty(hour).values == seq(60, _ => None);
    NothingSeen(samples, hour, minute);
    forall i | 0 <= i < 60 ensures Slot(samples, SlotStart(hour, i), minute) == None {
      if SlotStart(hour, i) < minute {
        MinuteIsEmpty(samples, hour, minute, i);
      }
    }
  }

  // ---------------------------------------------------------------- every run

  lemma TimesOf(samples: seq<Sample>)
    requires Proper(samples) && samples != []
    ensures var now := MinuteOf(samples[|samples| - 1].t);
            && now % 60 == 0 && now >= 60
            && forall i :: 0 <= i < |samples| ==> MinuteOf(samples[i].t) <= now && HourOf(samples[i].t) <= HourOf(now)
  {
    var last := samples[|samples| - 1];
    TimesAreOrdered(60, last.t);
    forall i | 0 <= i < |samples|
      ensures MinuteOf(samples[i].t) <= MinuteOf(last.t) && HourOf(samples[i].t) <= HourOf(MinuteOf(last.t))
    {
      TimesAreOrdered(samples[i].t, last.t);
    }
  }

  /** The entry that a minute is archived into, before that: the one in memory or a fresh one. */
  lemma BaseFits(hour: Option<Entry>, samples: seq<Sample>, now: int)
    requires Proper(samples) && samples != [] && now == MinuteOf(samples[|samples| - 1].t)
    requires hour.Some? <==> SomeOver(samples, now)
    requires hour.Some? ==> HourFits(hour.value, samples, now) && IsLastHour(hour.value.start, samples, now)
    ensures var h := hour.GetOr(Empty(0));
            HourFits(if HourOf(now) != h.start then Empty(HourOf(now)) else h, samples, now)
  {
    assert Empty(0).start == 0;
    hide HourOf, MinuteOf, HourFits, InHour, Proper, Empty;
    TimesOf(samples);
    HourRange(now);
    var h := hour.GetOr(Empty(0));
    if hour.None? || HourOf(now) != h.start {
      if hour.Some? {
        LastHourIsOver(samples, h.start, now);
      }
      EmptyFits(samples, HourOf(now), now);
    }
  }

  /** If the last hour of which something is over is not that of the moment, nothing of this one is over. */
  lemma LastHourIsOver(samples: seq<Sample>, hour: int, now: int)
    requires IsLastHour(hour, samples, now) && HourOf(now) != hour
    requires forall i :: 0 <= i < |samples| ==> HourOf(samples[i].t) <= HourOf(now)
    ensures forall i :: 0 <= i < |samples| ==> HourOf(samples[i].t) != HourOf(now) || MinuteOf(samples[i].t) >= now
  {
    hide HourOf, MinuteOf, InHour;
    var i := SomethingOver(samples, hour, now);
  }

  /** Archiving the minute in memory, once a later one begins. */
  lemma ArchiveMatches(s: Series, samples: seq<Sample>, later: int)
    requires Proper(samples) && samples != [] && SeriesMatches(s, samples)
    requires MinuteOf(samples[|samples| - 1].t) < later
    ensures var now := MinuteOf(samples[|samples| - 1].t);
            && (s.hour.Some? ==> |s.hour.value.values| == 60) && s.minute.Some? && s.minute.value.start == now
            && now % 60 == 0 && now != 0
            && var h := Archive(s.hour, s.minute.value);
               HourFits(h, samples, later) && IsLastHour(h.start, samples, later)
  {
    var now := MinuteOf(samples[|samples| - 1].t);
    var e := s.minute.value;
    TimesOf(samples);
    BaseFits(s.hour, samples, now);
    var h := s.hour.GetOr(Empty(0));
    var base := if HourOf(now) != h.start then Empty(HourOf(now)) else h;
    assert InMinute(samples, now) != [];
    hide HourOf, MinuteOf, InMinute, InHour, MinuteMatches, HourFits, Proper, Absorb;
    assert base.start == HourOf(now);
    AbsorbFits(base, e, samples, later);
    AbsorbStart(base, e);
    assert Archive(s.hour, e) == Absorb(base, e) by { ArchiveIs(s.hour, e); }
  }

  lemma AbsorbStart(h: Entry, e: Entry)
    requires |h.values| == 60 && e.start % 60 == 0 && h.start == HourOf(e.start)
    ensures Absorb(h, e).start == h.start
  {
  }

  lemma ArchiveIs(hour: Option<Entry>, e: Entry)
    requires (hour.Some? ==> |hour.value.values| == 60) && e.start % 60 == 0
    ensures var h := hour.GetOr(Empty(0));
            Archive(hour, e) == Absorb(if HourOf(e.start) != h.start then Empty(HourOf(e.start)) else h, e)
  {
  }

  lemma LastAtPush(samples: seq<Sample>, x: Sample, t: int)
    ensures LastAt(samples + [x], t) == if x.t == t then Some(x.v) else LastAt(samples, t)
  {
    assert (samples + [x])[..|samples|] == samples;
  }

  lemma InsertSeconds(e: Entry, samples: seq<Sample>, x: Sample)
    requires SecondsMatch(e, samples) && MinuteOf(x.t) == e.start
    ensures SecondsMatch(Insert(e, SecondOf(x.t), x.v), samples + [x])
  {
    hide LastAt, MinuteOf, SecondOf;
    forall i | 0 <= i < 60 ensures Insert(e, SecondOf(x.t), x.v).values[i] == LastAt(samples + [x], e.start + i) {
      LastAtPush(samples, x, e.start + i);
    }
  }

  lemma {:induction false} NothingYetAt(samples: seq<Sample>, t: int)
    requires forall i :: 0 <= i < |samples| ==> samples[i].t != t
    ensures LastAt(samples, t) == None
  {
    if samples != [] {
      NothingYetAt(samples[..|samples| - 1], t);
    }
  }

  /** A minute that has no samples yet. */
  lemma FreshMinute(samples: seq<Sample>, minute: int)
    requires forall i :: 0 <= i < |samples| ==> MinuteOf(samples[i].t) < minute
    requires minute % 60 == 0
    ensures MinuteMatches(Empty(minute), samples) && SecondsMatch(Empty(minute), samples)
  {
    hide MinuteOf, LastAt;
    NoneInMinute(samples, minute);
    EmptyMatches(samples, minute);
    forall i | 0 <= i < 60 ensures Empty(minute).values[i] == LastAt(samples, minute + i) {
      forall k | 0 <= k < |samples| ensures samples[k].t != minute + i {
        TimesAreOrdered(samples[k].t, samples[k].t);
        BelowMinute(MinuteOf(samples[k].t), minute);
      }
      NothingYetAt(samples, minute + i);
    }
  }

  lemma BelowMinute(a: int, b: int)
    requires a < b && a % 60 == 0 && b % 60 == 0
    ensures a + 60 <= b
  {
  }

  lemma SomeOverPush(samples: seq<Sample>, x: Sample, now: int)
    requires MinuteOf(x.t) >= now
    ensures SomeOver(samples + [x], now) <==> SomeOver(samples, now)
  {
    var all := samples + [x];
    assert forall i :: 0 <= i < |samples| ==> all[i] == samples[i];
    if i :| 0 <= i < |samples| && MinuteOf(samples[i].t) < now {
      assert MinuteOf(all[i].t) < now;
    }
  }

  /** A sample of the minute in memory. */
  lemma SameMinute(s: Series, samples: seq<Sample>, x: Sample)
    requires Valid(s) && Proper(samples) && samples != [] && SeriesMatches(s, samples)
    requires MinuteOf(x.t) == MinuteOf(samples[|samples| - 1].t)
    ensures SeriesMatches(Series(Some(Insert(s.minute.value, SecondOf(x.t), x.v)), s.hour), samples + [x])
  {
    var now := MinuteOf(x.t);
    hide MinuteMatches, SecondsMatch, HourFits, IsLastHour, SomeOver, MinuteOf, Insert;
    InsertMatches(s.minute.value, samples, x);
    InsertSeconds(s.minute.value, samples, x);
    InsertStart(s.minute.value, x);
    SomeOverPush(samples, x, now);
    if s.hour.Some? {
      HourIgnores(s.hour.value, samples, x, now);
    }
  }

  lemma InsertStart(e: Entry, x: Sample)
    requires |e.values| == 60
    ensures Insert(e, SecondOf(x.t), x.v).start == e.start
  {
  }

  /** A sample that begins a minute. */
  lemma MinuteBegins(samples: seq<Sample>, x: Sample)
    requires forall i :: 0 <= i < |samples| ==> MinuteOf(samples[i].t) < MinuteOf(x.t)
    ensures var e := Insert(Empty(MinuteOf(x.t)), SecondOf(x.t), x.v);
            e.start == MinuteOf(x.t) && MinuteMatches(e, samples + [x]) && SecondsMatch(e, samples + [x])
  {
    var now := MinuteOf(x.t);
    assert now % 60 == 0;
    hide MinuteMatches, SecondsMatch, MinuteOf, Insert;
    FreshMinute(samples, now);
    InsertMatches(Empty(now), samples, x);
    InsertSeconds(Empty(now), samples, x);
    InsertStart(Empty(now), x);
  }

  /** A sample of a later minute. */
  lemma LaterMinute(s: Series, samples: seq<Sample>, x: Sample)
    requires Valid(s) && Proper(samples) && samples != [] && SeriesMatches(s, samples)
    requires MinuteOf(samples[|samples| - 1].t) < MinuteOf(x.t) && s.minute.value.start % 60 == 0
    ensures s.minute.value.start != 0
    ensures SeriesMatches(Series(Some(Insert(Empty(MinuteOf(x.t)), SecondOf(x.t), x.v)),
                                 Some(Archive(s.hour, s.minute.value))),
                          samples + [x])
  {
    var later := MinuteOf(x.t);
    assert later % 60 == 0;
    ArchiveMatches(s, samples, later);
    TimesOf(samples);
    assert SomeOver(samples, later) by { assert MinuteOf(samples[|samples| - 1].t) < later; }
    hide MinuteMatches, SecondsMatch, HourFits, IsLastHour, SomeOver, MinuteOf, HourOf, Insert, Archive;
    MinuteBegins(samples, x);
    SomeOverPush(samples, x, later);
    HourIgnores(Archive(s.hour, s.minute.value), samples, x, later);
  }

  lemma ProperFront(front: seq<Sample>, x: Sample)
    requires Proper(front + [x])
    ensures Proper(front) && x.t >= 60 && (front != [] ==> front[|front| - 1].t <= x.t)
  {
    var all := front + [x];
    assert forall i :: 0 <= i < |front| ==> front[i] == all[i];
    assert all[|front|] == x;
    assert front != [] ==> all[|front| - 1].t <= all[|front|].t;
  }

  lemma AddAllPush(front: seq<Sample>, x: Sample)
    ensures AddAll(front + [x]) == AddSample(AddAll(front), x.t, x.v)
  {
    assert (front + [x])[..|front|] == front;
  }

  lemma MinuteInMemory(s: Series, samples: seq<Sample>)
    requires samples != [] && SeriesMatches(s, samples)
    ensures s.minute.Some? && s.minute.value.start == MinuteOf(samples[|samples| - 1].t)
  {
  }

  lemma OpensSeries(e: Entry, samples: seq<Sample>)
    requires samples != [] && e.start == MinuteOf(samples[|samples| - 1].t) && !SomeOver(samples, e.start)
    requires MinuteMatches(e, samples) && SecondsMatch(e, samples)
    ensures SeriesMatches(Series(Some(e), None), samples)
  {
  }

  lemma NothingIsOverAtFirst(now: int)
    ensures !SomeOver([], now)
  {
  }

  /** One more sample, the first of a key or not. */
  lemma SampleMatches(front: seq<Sample>, s: Series, x: Sample)
    requires Proper(front + [x]) && SeriesMatches(s, front) && Valid(s)
    requires s.minute.Some? ==> s.minute.value.start % 60 == 0
    ensures SeriesMatches(AddSample(s, x.t, x.v), front + [x])
  {
    assert front == [] ==> s == Series(None, None);
    assert Empty(0).start == 0;
    hide Insert, Archive, MinuteOf, SeriesMatches, MinuteMatches, SecondsMatch, SomeOver, Proper;
    ProperFront(front, x);
    if front == [] {
      TimesAreOrdered(60, x.t);
      LateMinute(x.t);
      NothingIsOverAtFirst(MinuteOf(x.t));
      MinuteBegins(front, x);
      SomeOverPush(front, x, MinuteOf(x.t));
      OpensSeries(Insert(Empty(MinuteOf(x.t)), SecondOf(x.t), x.v), front + [x]);
    } else {
      TimesAreOrdered(front[|front| - 1].t, x.t);
      MinuteInMemory(s, front);
      if MinuteOf(x.t) == MinuteOf(front[|front| - 1].t) {
        SameMinute(s, front, x);
      } else {
        LaterMinute(s, front, x);
      }
    }
  }

  lemma LateMinute(t: int)
    requires t >= 60
    ensures MinuteOf(t) >= 60
  {
  }

  /** After any samples in the order of their times, the two entries in memory are those
      computed from the samples themselves: the minute from its own samples, the hour from those of the minutes
      of that hour that are over. */
  lemma {:induction false} EntriesMatchSamples(samples: seq<Sample>)
    requires Proper(samples)
    ensures SeriesMatches(AddAll(samples), samples)
    decreases |samples|
  {
    if samples != [] {
      var front, x := samples[..|samples| - 1], samples[|samples| - 1];
      assert samples == front + [x];
      hide *;
      ProperFront(front, x);
      AddAllPush(front, x);
      EntriesMatchSamples(front);
      SampleMatches(front, AddAll(front), x);
    }
  }

  // ---------------------------------------------------------------- what zeros do to the least and the greatest

  ghost predicate SomeBeyond(vs: seq<real>, side: Side) {
    exists v :: v in vs && Beyond(v, side)
  }

  /** The values that count among `vs`: those beyond zero, all if there is no zero, and zero itself, unless there are
      others beyond it, only when it comes `last`. */
  ghost predicate Counting(counts: iset<real>, vs: seq<real>, last: bool, side: Side) {
    && (forall v :: v in counts ==> v in vs)
    && (forall v :: v in vs && (Beyond(v, side) || 0.0 !in vs) ==> v in counts)
    && (vs != [] ==> exists v :: v in vs && v in counts)
    && (0.0 in counts ==> SomeBeyond(vs, side) || last)
    && (last ==> 0.0 in counts)
  }

  /** What is the least, or the greatest, of the values that count is so of all values exactly when some value lies
      beyond zero, or there is no zero, or one comes last. */
  lemma ExtremeOfCounting(x: Option<real>, vs: seq<real>, counts: iset<real>, last: bool, side: Side)
    requires Counting(counts, vs, last, side)
    requires x.Some? ==> x.value in counts
    requires forall v :: v in counts ==> x.Some? && NoFurther(x.value, v, side)
    ensures IsExtreme(x, vs, side) <==> SomeBeyond(vs, side) || 0.0 !in vs || last
  {
    if vs != [] {
      var v :| v in vs && v in counts;
      assert x.Some? && x.value in vs;
      if SomeBeyond(vs, side) {
        var w :| w in vs && Beyond(w, side);
        assert w in counts && Beyond(x.value, side);
        forall u | u in vs ensures NoFurther(x.value, u, side) {
          assert u in counts || !Beyond(u, side);
        }
      } else {
        assert forall u :: u in vs ==> !Beyond(u, side);
        assert 0.0 in vs && !last ==> x.value != 0.0;
      }
    }
  }

  predicate EndsInZero(vs: seq<real>) {
    vs != [] && vs[|vs| - 1] == 0.0
  }

  ghost function SeenSet(vs: seq<real>, side: Side): iset<real> {
    iset v | v in Seen(vs, side)
  }

  lemma SeenCounts(vs: seq<real>, side: Side)
    ensures Counting(SeenSet(vs, side), vs, EndsInZero(vs), side)
    ensures Seen(vs, side) == [] <==> vs == []
  {
    AfterZeroIs(vs);
    assert vs != [] ==> Seen(vs, side)[0] in SeenSet(vs, side) && vs[|vs| - 1] in vs;
  }

  /** The minute in memory has the least of its values, and the greatest, exactly as long as no zero among them is
      forgotten: some value lies beyond it, or it is the last. */
  lemma MinuteExtremes(samples: seq<Sample>)
    requires Proper(samples) && samples != []
    ensures var e := AddAll(samples).minute.value;
            var vs := InMinute(samples, e.start);
            && (IsExtreme(e.min, vs, Least) <==> SomeBeyond(vs, Least) || 0.0 !in vs || EndsInZero(vs))
            && (IsExtreme(e.max, vs, Greatest) <==> SomeBeyond(vs, Greatest) || 0.0 !in vs || EndsInZero(vs))
  {
    EntriesMatchSamples(samples);
    var e := AddAll(samples).minute.value;
    var vs := InMinute(samples, e.start);
    hide Seen, Counting, SomeBeyond;
    SeenCounts(vs, Least);
    SeenCounts(vs, Greatest);
    ExtremeOfCounting(e.min, vs, SeenSet(vs, Least), EndsInZero(vs), Least);
    ExtremeOfCounting(e.max, vs, SeenSet(vs, Greatest), EndsInZero(vs), Greatest);
  }

  /** The samples of an hour are those of its minutes. */
  lemma {:induction false} InHourIs(samples: seq<Sample>, hour: int, now: int, v: real)
    ensures v in InHour(samples, hour, now) <==> exists m :: HourOf(m) == hour && m < now && v in InMinute(samples, m)
  {
    if samples != [] {
      var front, last := samples[..|samples| - 1], samples[|samples| - 1];
      InHourIs(front, hour, now, v);
      assert samples == front + [last];
      HourOfMinute(last.t);
      hide InHour, InMinute, HourOf, MinuteOf;
      InHourPush(front, last, hour, now);
      forall m
        ensures v in InMinute(samples, m) <==> v in InMinute(front, m) || (v == last.v && MinuteOf(last.t) == m)
      {
        InMinutePush(front, last, m);
      }
    }
  }

  /** Some minute of the hour that is over ends in a zero. */
  ghost predicate MinuteEndsInZero(samples: seq<Sample>, hour: int, now: int) {
    exists m :: HourOf(m) == hour && m < now && EndsInZero(InMinute(samples, m))
  }

  /** What counts for a minute of the hour counts for the hour. */
  lemma MinuteCounts(samples: seq<Sample>, hour: int, now: int, m: int, side: Side)
    requires HourOf(m) == hour && m < now
    ensures forall v :: v in Seen(InMinute(samples, m), side) ==>
              v in InMinute(samples, m) && v in InHour(samples, hour, now) && SeenInHour(v, samples, hour, now, side)
    ensures forall v :: v in InMinute(samples, m) && (Beyond(v, side) || 0.0 !in InHour(samples, hour, now)) ==>
              SeenInHour(v, samples, hour, now, side)
    ensures InMinute(samples, m) != [] ==>
              exists v :: v in InHour(samples, hour, now) && SeenInHour(v, samples, hour, now, side)
    ensures 0.0 in Seen(InMinute(samples, m), side) ==>
              SomeBeyond(InHour(samples, hour, now), side) || EndsInZero(InMinute(samples, m))
    ensures EndsInZero(InMinute(samples, m)) ==> SeenInHour(0.0, samples, hour, now, side)
  {
    var vs := InMinute(samples, m);
    SeenCounts(vs, side);
    forall v | v in vs ensures v in InHour(samples, hour, now) {
      InHourIs(samples, hour, now, v);
    }
    hide InHour, InMinute, HourOf, Seen;
    assert vs != [] ==> Seen(vs, side)[0] in Seen(vs, side);
  }

  ghost function HourSeenSet(samples: seq<Sample>, hour: int, now: int, side: Side): iset<real> {
    iset v | SeenInHour(v, samples, hour, now, side)
  }

  lemma HourCounts(samples: seq<Sample>, hour: int, now: int, side: Side)
    ensures Counting(HourSeenSet(samples, hour, now, side), InHour(samples, hour, now),
                     MinuteEndsInZero(samples, hour, now), side)
  {
    var vs := InHour(samples, hour, now);
    hide InHour, InMinute, HourOf, Seen, EndsInZero, SomeBeyond, Beyond;
    forall v | SeenInHour(v, samples, hour, now, side)
      ensures v in vs && (v == 0.0 ==> SomeBeyond(vs, side) || MinuteEndsInZero(samples, hour, now))
    {
      var m :| HourOf(m) == hour && m < now && v in Seen(InMinute(samples, m), side);
      MinuteCounts(samples, hour, now, m, side);
    }
    forall v | v in vs && (Beyond(v, side) || 0.0 !in vs) ensures SeenInHour(v, samples, hour, now, side) {
      InHourIs(samples, hour, now, v);
      var m :| HourOf(m) == hour && m < now && v in InMinute(samples, m);
      MinuteCounts(samples, hour, now, m, side);
    }
    if vs != [] {
      InHourIs(samples, hour, now, vs[0]);
      var m :| HourOf(m) == hour && m < now && vs[0] in InMinute(samples, m);
      MinuteCounts(samples, hour, now, m, side);
      var w :| w in vs && SeenInHour(w, samples, hour, now, side);
      assert w in HourSeenSet(samples, hour, now, side);
    }
    if MinuteEndsInZero(samples, hour, now) {
      var m :| HourOf(m) == hour && m < now && EndsInZero(InMinute(samples, m));
      MinuteCounts(samples, hour, now, m, side);
    }
  }

  /** The hour in memory has the least, and the greatest, of the values of its minutes exactly as long as no zero among
      them is forgotten. */
  lemma HourExtremes(samples: seq<Sample>)
    requires Proper(samples) && samples != [] && AddAll(samples).hour.Some?
    ensures var h, now := AddAll(samples).hour.value, MinuteOf(samples[|samples| - 1].t);
            var vs, last := InHour(samples, h.start, now), MinuteEndsInZero(samples, h.start, now);
            && (IsExtreme(h.min, vs, Least) <==> SomeBeyond(vs, Least) || 0.0 !in vs || last)
            && (IsExtreme(h.max, vs, Greatest) <==> SomeBeyond(vs, Greatest) || 0.0 !in vs || last)
  {
    EntriesMatchSamples(samples);
    var h, now := AddAll(samples).hour.value, MinuteOf(samples[|samples| - 1].t);
    assert HourFits(h, samples, now);
    var vs, last := InHour(samples, h.start, now), MinuteEndsInZero(samples, h.start, now);
    hide InHour, MinuteEndsInZero, IsExtreme, AddAll, Counting, SeenInHour, SomeBeyond;
    HourCounts(samples, h.start, now, Least);
    HourCounts(samples, h.start, now, Greatest);
    ExtremeOfCounting(h.min, vs, HourSeenSet(samples, h.start, now, Least), last, Least);
    ExtremeOfCounting(h.max, vs, HourSeenSet(samples, h.start, now, Greatest), last, Greatest);
  }

  /** It does happen: of the values 0 and 5, in this order, the least is said to be 5. */
  lemma ZeroIsForgotten()
    ensures var samples := [Sample(60, 0.0), Sample(61, 5.0)];
            InMinute(samples, 60) == [0.0, 5.0] && AddAll(samples).minute.Some?
            && AddAll(samples).minute.value.start == 60 && AddAll(samples).minute.value.min == Some(5.0)
  {
    var front, x := [Sample(60, 0.0)], Sample(61, 5.0);
    assert [Sample(60, 0.0), Sample(61, 5.0)] == front + [x];
    AddAllPush(front, x);
    AddAllPush([], Sample(60, 0.0));
    assert [] + [Sample(60, 0.0)] == front;
    InMinutePush(front, x, 60);
    InMinutePush([], Sample(60, 0.0), 60);
  }

  // ---------------------------------------------------------------- the database

  /** All that was written for a key. */
  function WrittenAll(name: string, samples: seq<Sample>): map<DbKey, Entry> {
    if samples == [] then map[]
    else
      var front := samples[..|samples| - 1];
      WrittenAll(name, front) + WrittenBy(name, AddAll(front), samples[|samples| - 1].t)
  }

  /** The entry of a minute that has samples, with its average. */
  ghost predicate Stored(e: Entry, samples: seq<Sample>, minute: int) {
    && e.start == minute && MinuteMatches(e, samples) && SecondsMatch(e, samples)
    && InMinute(samples, minute) != [] && e.avg == Some(Average(InMinute(samples, minute)))
  }

  lemma StoredStays(e: Entry, samples: seq<Sample>, x: Sample, minute: int)
    requires Stored(e, samples, minute) && MinuteOf(x.t) != minute && minute % 60 == 0
    ensures Stored(e, samples + [x], minute)
  {
    hide InMinute, LastAt, Sum, Average;
    InMinutePush(samples, x, minute);
    forall i | 0 <= i < 60 ensures e.values[i] == LastAt(samples + [x], e.start + i) {
      LastAtPush(samples, x, e.start + i);
    }
  }

  lemma {:induction false} MinutesAreWhole(samples: seq<Sample>, minute: int)
    requires InMinute(samples, minute) != []
    ensures minute % 60 == 0 && exists i :: 0 <= i < |samples| && MinuteOf(samples[i].t) == minute
  {
    var front, last := samples[..|samples| - 1], samples[|samples| - 1];
    if MinuteOf(last.t) != minute {
      MinutesAreWhole(front, minute);
      var i :| 0 <= i < |front| && MinuteOf(front[i].t) == minute;
      assert MinuteOf(samples[i].t) == minute;
    } else {
      assert MinuteOf(samples[|samples| - 1].t) == minute;
    }
  }

  /** Exactly the minutes that have samples and are over. */
  ghost predicate MinutesStored(db: map<DbKey, Entry>, name: string, samples: seq<Sample>, now: int) {
    forall m :: (MinuteKey(name, m) in db <==> InMinute(samples, m) != [] && m < now)
                && (MinuteKey(name, m) in db ==> Stored(db[MinuteKey(name, m)], samples, m))
  }

  /** A sample of a minute that is not over, or of a later one, leaves what is stored as it is. */
  lemma MinutesStay(db: map<DbKey, Entry>, name: string, samples: seq<Sample>, x: Sample, now: int)
    requires MinutesStored(db, name, samples, now) && MinuteOf(x.t) >= now
    ensures MinutesStored(db, name, samples + [x], now)
  {
    hide InMinute, Stored, MinuteOf;
    forall m ensures (MinuteKey(name, m) in db <==> InMinute(samples + [x], m) != [] && m < now)
                     && (MinuteKey(name, m) in db ==> Stored(db[MinuteKey(name, m)], samples + [x], m))
    {
      InMinutePush(samples, x, m);
      if MinuteKey(name, m) in db {
        MinutesAreWhole(samples, m);
        StoredStays(db[MinuteKey(name, m)], samples, x, m);
      }
    }
  }

  /** When a later minute begins, the one in memory is stored. */
  lemma MinuteIsStored(db: map<DbKey, Entry>, name: string, s: Series, samples: seq<Sample>, t: int)
    requires Proper(samples) && samples != [] && SeriesMatches(s, samples)
    requires MinuteOf(samples[|samples| - 1].t) < MinuteOf(t)
    requires MinutesStored(db, name, samples, MinuteOf(samples[|samples| - 1].t))
    ensures MinutesStored(db + WrittenBy(name, s, t), name, samples, MinuteOf(t))
  {
    var now := MinuteOf(samples[|samples| - 1].t);
    var e := s.minute.value;
    TimesOf(samples);
    assert InMinute(samples, now) != [] && AvgOf(e) == Some(Average(InMinute(samples, now)));
    WrittenMinutes(name, s, t);
    var db' := db + WrittenBy(name, s, t);
    hide InMinute, Average, HourOf, Sum, WrittenBy, LastAt;
    assert Stored(e.(avg := AvgOf(e)), samples, now);
    forall m ensures (MinuteKey(name, m) in db' <==> InMinute(samples, m) != [] && m < MinuteOf(t))
                     && (MinuteKey(name, m) in db' ==> Stored(db'[MinuteKey(name, m)], samples, m))
    {
      if now < m && InMinute(samples, m) != [] {
        MinutesAreWhole(samples, m);
      }
    }
  }

  lemma WrittenMinutes(name: string, s: Series, t: int)
    requires s.minute.Some? && s.minute.value.start != 0 && MinuteOf(t) != s.minute.value.start
    ensures var e, w := s.minute.value, WrittenBy(name, s, t);
            && (forall m :: MinuteKey(name, m) in w <==> m == e.start)
            && w[MinuteKey(name, e.start)] == e.(avg := AvgOf(e))
  {
  }

  /** After any samples in the order of their times the database has exactly the minutes that are
      over and had samples, and what it has of them is computed from the samples. */
  lemma {:induction false} DatabaseHasPastMinutes(name: string, samples: seq<Sample>)
    requires Proper(samples) && samples != []
    ensures MinutesStored(WrittenAll(name, samples), name, samples, MinuteOf(samples[|samples| - 1].t))
    decreases |samples|
  {
    var front, x := samples[..|samples| - 1], samples[|samples| - 1];
    assert samples == front + [x];
    if front == [] {
      FirstWritesNothing(name, x);
      assert samples == [x];
    } else {
      DatabaseHasPastMinutes(name, front);
      NextWrites(name, front, x);
    }
  }

  lemma NextWrites(name: string, front: seq<Sample>, x: Sample)
    requires front != [] && Proper(front + [x])
    requires MinutesStored(WrittenAll(name, front), name, front, MinuteOf(front[|front| - 1].t))
    ensures MinutesStored(WrittenAll(name, front + [x]), name, front + [x], MinuteOf(x.t))
  {
    hide *;
    ProperFront(front, x);
    var last := front[|front| - 1];
    TimesAreOrdered(last.t, x.t);
    EntriesMatchSamples(front);
    WrittenAllPush(name, front, x);
    if MinuteOf(x.t) == MinuteOf(last.t) {
      SameMinuteWritesNothing(name, AddAll(front), x.t);
      assert WrittenAll(name, front) + map[] == WrittenAll(name, front);
    } else {
      MinuteIsStored(WrittenAll(name, front), name, AddAll(front), front, x.t);
    }
    MinutesStay(WrittenAll(name, front + [x]), name, front, x, MinuteOf(x.t));
  }

  lemma WrittenAllPush(name: string, front: seq<Sample>, x: Sample)
    ensures WrittenAll(name, front + [x]) == WrittenAll(name, front) + WrittenBy(name, AddAll(front), x.t)
  {
    assert (front + [x])[..|front|] == front;
  }

  lemma SameMinuteWritesNothing(name: string, s: Series, t: int)
    requires s.minute.Some? && s.minute.value.start == MinuteOf(t)
    ensures WrittenBy(name, s, t) == map[]
  {
  }

  lemma FirstWritesNothing(name: string, x: Sample)
    ensures WrittenAll(name, [x]) == map[] && MinutesStored(map[], name, [x], MinuteOf(x.t))
  {
    assert [x][..0] == [];
    forall m ensures !(InMinute([x], m) != [] && m < MinuteOf(x.t)) {
      assert InMinute([x], m) == InMinute([], m) + if MinuteOf(x.t) == m then [x.v] else [];
    }
  }

  // ---------------------------------------------------------------- the hours in the database

  /** Some sample lies in an hour strictly between 0 and `hour`. */
  ghost predicate HasEarlierHour(samples: seq<Sample>, hour: int) {
    exists i :: 0 <= i < |samples| && 0 < HourOf(samples[i].t) < hour
  }

  /** The entry of the last hour before `hour` that has samples, computed from them. */
  ghost predicate IsHourBefore(e: Entry, samples: seq<Sample>, hour: int) {
    HourFits(e, samples, hour) && IsLastHour(e.start, samples, hour)
  }

  ghost predicate HourKeyIs(db: map<DbKey, Entry>, name: string, samples: seq<Sample>, now: int, hour: int) {
    && (HourKey(name, hour) in db <==> InHour(samples, hour, now) != [] && HasEarlierHour(samples, hour))
    && (HourKey(name, hour) in db ==> IsHourBefore(db[HourKey(name, hour)], samples, hour))
  }

  ghost predicate HoursStored(db: map<DbKey, Entry>, name: string, samples: seq<Sample>, now: int) {
    forall hour :: HourKeyIs(db, name, samples, now, hour)
  }

  /** Of an hour that is over, everything is over, however late it is. */
  lemma {:induction false} SameInHour(samples: seq<Sample>, hour: int, now: int, later: int)
    requires hour % 3600 == 0 && hour + 3600 <= now && hour + 3600 <= later
    ensures InHour(samples, hour, now) == InHour(samples, hour, later)
  {
    if samples != [] {
      var front, last := samples[..|samples| - 1], samples[|samples| - 1];
      SameInHour(front, hour, now, later);
      assert samples == front + [last];
      if HourOf(last.t) == hour {
        MinuteWithinHour(last.t);
      }
      hide InHour, HourOf, MinuteOf;
      InHourPush(front, last, hour, now);
      InHourPush(front, last, hour, later);
    }
  }

  lemma MinuteWithinHour(t: int)
    ensures HourOf(t) <= MinuteOf(t) < HourOf(t) + 3600 && HourOf(t) % 3600 == 0
  {
    TimesAreOrdered(t, t);
    HourRange(MinuteOf(t));
  }

  lemma HourRange(t: int)
    ensures HourOf(t) <= t < HourOf(t) + 3600 && HourOf(t) % 3600 == 0
  {
  }

  lemma SameSlotBound(samples: seq<Sample>, m: int, now: int, later: int)
    requires m < now && m < later
    ensures Slot(samples, m, now) == Slot(samples, m, later)
  {
  }

  lemma SlotBelow(hour: int, i: int)
    requires 0 <= i < 60
    ensures SlotStart(hour, i) < hour + 3600
  {
  }

  lemma SameSeenThen(samples: seq<Sample>, hour: int, now: int, later: int)
    requires hour + 3600 <= now && hour + 3600 <= later
    ensures forall v, side :: SeenInHour(v, samples, hour, now, side) <==> SeenInHour(v, samples, hour, later, side)
  {
    forall m | HourOf(m) == hour ensures m < hour + 3600 {
      HourRange(m);
    }
    hide InMinute, HourOf, Seen;
  }

  /** The entry of an hour that is over fits whatever the moment. */
  lemma SameFit(e: Entry, samples: seq<Sample>, now: int, later: int)
    requires e.start % 3600 == 0 && e.start + 3600 <= now && e.start + 3600 <= later && HourFits(e, samples, now)
    ensures HourFits(e, samples, later)
  {
    SameSeenThen(samples, e.start, now, later);
    hide InHour, Slot, SlotStart, CountSome, SumSome, SeenInHour;
    SameInHour(samples, e.start, now, later);
    forall i | 0 <= i < 60 ensures e.values[i] == Slot(samples, SlotStart(e.start, i), later) {
      SlotBelow(e.start, i);
      SameSlotBound(samples, SlotStart(e.start, i), now, later);
    }
  }

  /** When a minute of a new hour is stored, what is written under the key of that hour is the entry of the last
      hour before it that has samples. */
  lemma MemoryIsHourBefore(e: Entry, samples: seq<Sample>, now: int)
    requires Proper(samples) && samples != [] && now == MinuteOf(samples[|samples| - 1].t)
    requires HourFits(e, samples, now) && IsLastHour(e.start, samples, now) && e.start != HourOf(now)
    ensures e.start < HourOf(now) && IsHourBefore(e, samples, HourOf(now))
  {
    var hour := HourOf(now);
    TimesOf(samples);
    var k := SomethingOver(samples, e.start, now);
    HourRange(samples[k].t);
    HourRange(now);
    WholeHours(e.start, hour);
    SameFit(e, samples, now, hour);
    SameInHour(samples, e.start, now, hour);
    forall i | 0 <= i < |samples| && MinuteOf(samples[i].t) < hour ensures HourOf(samples[i].t) <= e.start {
      assert MinuteOf(samples[i].t) < now;
    }
  }

  lemma WholeHours(a: int, b: int)
    requires a % 3600 == 0 && b % 3600 == 0 && a < b
    ensures a + 3600 <= b
  {
  }

  /** Letting the minute `now` be over concerns the hour of that minute only. */
  lemma {:induction false} OtherHour(samples: seq<Sample>, hour: int, now: int, later: int)
    requires now % 60 == 0 && now < later && hour != HourOf(now)
    requires forall i :: 0 <= i < |samples| ==> MinuteOf(samples[i].t) <= now
    ensures InHour(samples, hour, now) == InHour(samples, hour, later)
  {
    if samples != [] {
      var front, last := samples[..|samples| - 1], samples[|samples| - 1];
      assert samples == front + [last];
      hide InHour, HourOf, MinuteOf;
      OtherHour(front, hour, now, later);
      TimesAreOrdered(last.t, last.t);
      InHourPush(front, last, hour, now);
      InHourPush(front, last, hour, later);
    }
  }

  /** What archiving writes under hour keys. */
  lemma WrittenHours(name: string, s: Series, t: int)
    requires s.minute.Some? && s.minute.value.start != 0 && MinuteOf(t) != s.minute.value.start
    ensures var w, h, hour := WrittenBy(name, s, t), s.hour.GetOr(Empty(0)), HourOf(s.minute.value.start);
            && (forall k :: HourKey(name, k) in w <==> k == hour && hour != h.start && h.start != 0)
            && (hour != h.start && h.start != 0 ==> w[HourKey(name, hour)] == h)
  {
  }

  /** Whether some hour with samples lies before the hour of the minute in memory, told from the hour in memory. */
  lemma {:induction false} MemoryTells(s: Series, samples: seq<Sample>)
    requires Proper(samples) && samples != [] && SeriesMatches(s, samples)
    ensures var now := MinuteOf(samples[|samples| - 1].t);
            var h := s.hour.GetOr(Empty(0));
            HourOf(now) != h.start ==>
              && InHour(samples, HourOf(now), now) == []
              && (HasEarlierHour(samples, HourOf(now)) <==> h.start != 0)
  {
    var now := MinuteOf(samples[|samples| - 1].t);
    var hour, h := HourOf(now), s.hour.GetOr(Empty(0));
    TimesOf(samples);
    if hour != h.start {
      if s.hour.Some? {
        var k := SomethingOver(samples, h.start, now);
        TimesAreOrdered(60, samples[k].t);
      }
      hide InHour, HourFits, MinuteMatches, SecondsMatch, HourOf, MinuteOf;
      NothingOver(samples, hour, now);
      EarlierIsOver(samples, hour, now);
    }
  }

  lemma EarlierIsOver(samples: seq<Sample>, hour: int, now: int)
    requires now % 60 == 0 && hour == HourOf(now)
    requires forall i :: 0 <= i < |samples| ==> MinuteOf(samples[i].t) <= now
    ensures forall i :: 0 <= i < |samples| && HourOf(samples[i].t) < hour ==> MinuteOf(samples[i].t) < now
  {
    forall i | 0 <= i < |samples| && HourOf(samples[i].t) < hour ensures MinuteOf(samples[i].t) < now {
      TimesAreOrdered(samples[i].t, samples[i].t);
    }
  }

  /** When a later minute begins, the hours stored are again those they should be. */
  lemma HourIsStored(db: map<DbKey, Entry>, name: string, s: Series, samples: seq<Sample>, t: int)
    requires Proper(samples) && samples != [] && SeriesMatches(s, samples)
    requires MinuteOf(samples[|samples| - 1].t) < MinuteOf(t)
    requires HoursStored(db, name, samples, MinuteOf(samples[|samples| - 1].t))
    ensures HoursStored(db + WrittenBy(name, s, t), name, samples, MinuteOf(t))
  {
    var now := MinuteOf(samples[|samples| - 1].t);
    var later, db' := MinuteOf(t), db + WrittenBy(name, s, t);
    TimesOf(samples);
    WrittenHours(name, s, t);
    hide WrittenBy;
    forall hour ensures HourKeyIs(db', name, samples, later, hour) {
      assert HourKeyIs(db, name, samples, now, hour);
      if hour != HourOf(now) {
        OtherHourKey(db, db', name, samples, now, later, hour);
      } else {
        ThisHourKey(db, db', name, s, samples, later);
      }
    }
  }

  lemma OtherHourKey(db: map<DbKey, Entry>, db': map<DbKey, Entry>, name: string, samples: seq<Sample>, now: int,
                     later: int, hour: int)
    requires HourKeyIs(db, name, samples, now, hour) && now % 60 == 0 && now < later && hour != HourOf(now)
    requires forall i :: 0 <= i < |samples| ==> MinuteOf(samples[i].t) <= now
    requires HourKey(name, hour) in db' <==> HourKey(name, hour) in db
    requires HourKey(name, hour) in db ==> db'[HourKey(name, hour)] == db[HourKey(name, hour)]
    ensures HourKeyIs(db', name, samples, later, hour)
  {
    hide InHour, IsHourBefore, HasEarlierHour, HourOf, MinuteOf;
    OtherHour(samples, hour, now, later);
  }

  lemma ThisHourKey(db: map<DbKey, Entry>, db': map<DbKey, Entry>, name: string, s: Series, samples: seq<Sample>,
                    later: int)
    requires Proper(samples) && samples != [] && SeriesMatches(s, samples)
    requires MinuteOf(samples[|samples| - 1].t) < later
    requires var now := MinuteOf(samples[|samples| - 1].t);
             var key, h := HourKey(name, HourOf(now)), s.hour.GetOr(Empty(0));
             && HourKeyIs(db, name, samples, now, HourOf(now))
             && if HourOf(now) != h.start && h.start != 0 then key in db' && db'[key] == h
                else (key in db' <==> key in db) && (key in db ==> db'[key] == db[key])
    ensures HourKeyIs(db', name, samples, later, HourOf(MinuteOf(samples[|samples| - 1].t)))
  {
    var now := MinuteOf(samples[|samples| - 1].t);
    var h := s.hour.GetOr(Empty(0));
    assert s.hour.Some? ==> HourFits(h, samples, now) && IsLastHour(h.start, samples, now);
    assert s.hour.None? ==> h.start == 0;
    LastIsOver(samples, later);
    MemoryTells(s, samples);
    if HourOf(now) != h.start && h.start != 0 {
      MemoryIsHourBefore(h, samples, now);
    }
    assert h.start == HourOf(now) && h.start != 0 ==> InHour(samples, HourOf(now), now) != [];
    assert HourOf(now) == 0 ==> !HasEarlierHour(samples, 0);
    hide InHour, HourFits, IsLastHour, SeriesMatches, HasEarlierHour, IsHourBefore, HourOf, MinuteOf, Proper;
  }

  lemma LastIsOver(samples: seq<Sample>, later: int)
    requires samples != [] && MinuteOf(samples[|samples| - 1].t) < later
    ensures InHour(samples, HourOf(MinuteOf(samples[|samples| - 1].t)), later) != []
  {
    TimesAreOrdered(samples[|samples| - 1].t, samples[|samples| - 1].t);
  }

  /** A sample of a minute that is not over, or of a later one, leaves the stored hours as they are. */
  lemma HoursStay(db: map<DbKey, Entry>, name: string, samples: seq<Sample>, x: Sample, now: int)
    requires HoursStored(db, name, samples, now) && MinuteOf(x.t) >= now
    ensures HoursStored(db, name, samples + [x], now)
  {
    forall hour ensures HourKeyIs(db, name, samples + [x], now, hour) {
      assert HourKeyIs(db, name, samples, now, hour);
      HourKeyStays(db, name, samples, x, now, hour);
    }
  }

  lemma HourKeyStays(db: map<DbKey, Entry>, name: string, samples: seq<Sample>, x: Sample, now: int, hour: int)
    requires HourKeyIs(db, name, samples, now, hour) && MinuteOf(x.t) >= now
    ensures HourKeyIs(db, name, samples + [x], now, hour)
  {
    InHourPush(samples, x, hour, now);
    EarlierPush(samples, x, hour);
    if InHour(samples, hour, now) != [] {
      var k := SomethingOver(samples, hour, now);
      MinuteBefore(samples[k].t, x.t);
      MinuteWithinHour(samples[k].t);
      if HourKey(name, hour) in db {
        HourIgnores(db[HourKey(name, hour)], samples, x, hour);
      }
    }
    hide InHour, HourFits, IsLastHour, HasEarlierHour, MinuteOf;
  }

  lemma MinuteBefore(t: int, u: int)
    requires MinuteOf(t) < MinuteOf(u)
    ensures HourOf(t) <= HourOf(u)
  {
    if u <= t {
      TimesAreOrdered(u, t);
    } else {
      TimesAreOrdered(t, u);
    }
  }

  lemma EarlierPush(samples: seq<Sample>, x: Sample, hour: int)
    ensures HasEarlierHour(samples + [x], hour) <==> HasEarlierHour(samples, hour) || 0 < HourOf(x.t) < hour
  {
    hide HourOf;
    var all := samples + [x];
    assert forall i :: 0 <= i < |samples| ==> all[i] == samples[i];
    assert all[|samples|] == x;
    if i :| 0 <= i < |samples| && 0 < HourOf(samples[i].t) < hour {
      assert 0 < HourOf(all[i].t) < hour;
    }
  }

  /** After any samples in the order of their times: there is something under the key of an hour
      exactly when a minute of that hour is over and some sample lies in an earlier hour other than 0. It is the
      entry of the last hour before it that has samples, computed from those samples. */
  lemma {:induction false} DatabaseHasHoursBefore(name: string, samples: seq<Sample>)
    requires Proper(samples) && samples != []
    ensures HoursStored(WrittenAll(name, samples), name, samples, MinuteOf(samples[|samples| - 1].t))
    decreases |samples|
  {
    var front, x := samples[..|samples| - 1], samples[|samples| - 1];
    assert samples == front + [x];
    if front == [] {
      FirstWritesNoHour(name, x);
      assert samples == [x];
    } else {
      ProperFront(front, x);
      DatabaseHasHoursBefore(name, front);
      NextWritesHours(name, front, x);
    }
  }

  lemma FirstWritesNoHour(name: string, x: Sample)
    ensures WrittenAll(name, [x]) == map[] && HoursStored(map[], name, [x], MinuteOf(x.t))
  {
    FirstWritesNothing(name, x);
    forall hour ensures HourKeyIs(map[], name, [x], MinuteOf(x.t), hour) {
      NothingOver([x], hour, MinuteOf(x.t));
    }
  }

  lemma NextWritesHours(name: string, front: seq<Sample>, x: Sample)
    requires front != [] && Proper(front + [x])
    requires HoursStored(WrittenAll(name, front), name, front, MinuteOf(front[|front| - 1].t))
    ensures HoursStored(WrittenAll(name, front + [x]), name, front + [x], MinuteOf(x.t))
  {
    hide *;
    ProperFront(front, x);
    var last := front[|front| - 1];
    TimesAreOrdered(last.t, x.t);
    EntriesMatchSamples(front);
    WrittenAllPush(name, front, x);
    if MinuteOf(x.t) == MinuteOf(last.t) {
      SameMinuteWritesNothing(name, AddAll(front), x.t);
      assert WrittenAll(name, front) + map[] == WrittenAll(name, front);
    } else {
      HourIsStored(WrittenAll(name, front), name, AddAll(front), front, x.t);
    }
    HoursStay(WrittenAll(name, front + [x]), name, front, x, MinuteOf(x.t));
  }

  lemma {:induction false} AnotherHour(name: string, samples: seq<Sample>, hour: int)
    requires HourKey(name, hour) in WrittenAll(name, samples)
    ensures WrittenAll(name, samples)[HourKey(name, hour)].start != hour
  {
    var front := samples[..|samples| - 1];
    hide AddAll, HourOf, MinuteOf, AvgOf;
    if HourKey(name, hour) !in WrittenBy(name, AddAll(front), samples[|samples| - 1].t) {
      AnotherHour(name, front, hour);
    }
  }

  /** So no hour is ever found under its own key; what is there began earlier, if the samples came in order. */
  lemma NoHourIsUnderItsOwnKey(name: string, samples: seq<Sample>, hour: int)
    requires HourKey(name, hour) in WrittenAll(name, samples)
    ensures WrittenAll(name, samples)[HourKey(name, hour)].start != hour
    ensures Proper(samples) ==> 0 < WrittenAll(name, samples)[HourKey(name, hour)].start < hour
  {
    AnotherHour(name, samples, hour);
    assert samples != [];
    hide WrittenAll, HourFits;
    if Proper(samples) {
      var now := MinuteOf(samples[|samples| - 1].t);
      var e := WrittenAll(name, samples)[HourKey(name, hour)];
      DatabaseHasHoursBefore(name, samples);
      assert HourKeyIs(WrittenAll(name, samples), name, samples, now, hour);
      var k := SomethingOver(samples, e.start, hour);
      TimesAreOrdered(samples[k].t, samples[k].t);
      HourRange(MinuteOf(samples[k].t));
      var i :| 0 <= i < |samples| && 0 < HourOf(samples[i].t) < hour;
      var j := SomethingOver(samples, hour, now);
      EarlierMinute(samples[i].t, samples[j].t);
    }
  }

  /** A time of an earlier hour lies in a minute before that hour. */
  lemma EarlierMinute(t: int, u: int)
    requires HourOf(t) < HourOf(u)
    ensures MinuteOf(t) < HourOf(u)
  {
    MinuteWithinHour(t);
    MinuteWithinHour(u);
    WholeHours(HourOf(t), HourOf(u));
  }

  /** And it does happen: the entry of the hour that begins at 3600 ends up under the key of the next hour. */
  lemma HourUnderTheNextKey(name: string)
    ensures var db := WrittenAll(name, [Sample(3600, 1.0), Sample(7200, 1.0), Sample(7260, 1.0)]);
            HourKey(name, 7200) in db && db[HourKey(name, 7200)].start == 3600
  {
    var samples := [Sample(3600, 1.0), Sample(7200, 1.0), Sample(7260, 1.0)];
    DatabaseHasHoursBefore(name, samples);
    var db := WrittenAll(name, samples);
    hide WrittenAll, HourFits;
    assert HourKeyIs(db, name, samples, 7260, 7200);
    assert HourOf(samples[0].t) == 3600 && MinuteOf(samples[0].t) == 3600;
    assert HourOf(samples[1].t) == 7200 && MinuteOf(samples[1].t) == 7200;
    assert InHour(samples, 7200, 7260) != [] by {
      assert samples == samples[..2] + [samples[2]] && samples[..2] == samples[..1] + [samples[1]];
      InHourPush(samples[..2], samples[2], 7200, 7260);
      InHourPush(samples[..1], samples[1], 7200, 7260);
      hide InHour;
    }
    hide InHour;
    var k := SomethingOver(samples, db[HourKey(name, 7200)].start, 7200);
    assert HourOf(samples[2].t) == 7200 && MinuteOf(samples[2].t) == 7260;
  }
}
