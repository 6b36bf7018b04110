/** The repeat suppressor over all series: a table of statuses, cleaned up by age, updated point by point. */
module Repeat {
  import opened Bytes
  import opened Collections
  import opened Points
  import opened Codec
  import opened Commands
  import opened Interpolation
  import opened RepeatSeries

  const MAX_AGE: int := 12 * MINUTE
  const CLEANUP_EVERY: int := 100000

  function SampleOf(d: Datum): Sample { Sample(d.time, d.value) }

  function Get(m: map<Bytes, Status>, s: Bytes): Option<Status> {
    if s in m then Some(m[s]) else None
  }

  /** The tester's state: statuses by series, and the calls left until the next cleanup. */
  datatype Table = Table(bySeries: map<Bytes, Status>, countdown: int)

  /** Every so many calls, forgets the series whose status is twelve minutes old. */
  function Cleaned(t: Table, now: int): Table {
    if t.countdown - 1 > 0 then t.(countdown := t.countdown - 1)
    else Table(map s | s in t.bySeries && !(t.bySeries[s].time <= now - MAX_AGE) :: t.bySeries[s], CLEANUP_EVERY)
  }

  function Tested(t: Table, d: Datum, now: int): Table {
    var c := Cleaned(t, now);
    c.(bySeries := c.bySeries[d.Series() := Judge(Get(c.bySeries, d.Series()), SampleOf(d)).status])
  }

  function Verdict(t: Table, d: Datum, now: int): Judgement {
    Judge(Get(Cleaned(t, now).bySeries, d.Series()), SampleOf(d))
  }

  predicate StatusInRange(ft: FloatText, r: Status) {
    IsInt64(r.time) && IsInt64(r.timePrev) && match r.value case Int(n) => IsInt64(n) case Float(x) => ft.finite(x)
  }

  class RepeatTester {
    const ft: FloatText
    var bySeries: map<Bytes, Status>
    var cleanupCountdown: int

    ghost predicate Valid()
      reads this
    {
      forall s :: s in bySeries ==> StatusInRange(ft, bySeries[s])
    }

    function State(): Table
      reads this
    {
      Table(bySeries, cleanupCountdown)
    }

    constructor (ft: FloatText)
      ensures Valid() && State() == Table(map[], CLEANUP_EVERY) && this.ft == ft
    {
      this.ft := ft;
      bySeries, cleanupCountdown := map[], CLEANUP_EVERY;
    }

    /**
     Judges a point. The command returned with it, if any, is that of the held point, and must be sent first.
     */
    method Test(point: Point, now: int) returns (isRepeat: bool, held: Option<Bytes>)
      requires Valid() && InRange(ft, point.Contents())
      modifies this, point
      ensures Valid() && point.Contents() == old(point.Contents())
      ensures State() == Tested(old(State()), point.Contents(), now)
      ensures var j := Verdict(old(State()), point.Contents(), now);
              && isRepeat == j.isRepeat
              && match j.held
                 case None => held == None
                 case Some(h) =>
                   var d := point.Contents().(time := h.t, value := h.value);
                   InRange(ft, d) && held == Some(PutCommand(ft, d))
    {
      Cleanup(now);
      var s := point.metric + point.tags;
      if s !in bySeries {
        bySeries := bySeries[s := Status(point.time, point.Value(), 2, 0)];
        return false, None;
      }
      var status;
      status, isRepeat, held := Update(point, bySeries[s]);
      bySeries := bySeries[s := status];
    }

    /** The three cases for a series that is known: a change, a heartbeat, a repeat. */
    method Update(point: Point, status0: Status) returns (status: Status, isRepeat: bool, held: Option<Bytes>)
      requires InRange(ft, point.Contents()) && StatusInRange(ft, status0)
      modifies point
      ensures point.Contents() == old(point.Contents()) && StatusInRange(ft, status)
      ensures var j := Judge(Some(status0), SampleOf(point.Contents()));
              && status == j.status && isRepeat == j.isRepeat
              && match j.held
                 case None => held == None
                 case Some(h) =>
                   var d := point.Contents().(time := h.t, value := h.value);
                   InRange(ft, d) && held == Some(PutCommand(ft, d))
    {
      status, held := status0, None;
      var time, value := point.time, point.Value();
      isRepeat := time > status.time && value == status.value;
      var needHeartbeat := isRepeat && Wrap64(time - status.time) >= HEARTBEAT;
      if needHeartbeat {
        isRepeat := false;
        status := Status(time, value, 1, 0);
      } else if isRepeat {
        if status.n == 2 {
          isRepeat := false;
        }
        status := status.(timePrev := time);
        if status.n > 0 {
          status := status.(n := status.n - 1);
        }
      } else {
        if status.n == 0 {
          var cmd := PutHeld(point, status);
          held := Some(cmd);
        }
        status := Status(time, value, 2, 0);
      }
    }

    /** Borrows the point to print the held one, and restores it. */
    method PutHeld(point: Point, status: Status) returns (cmd: Bytes)
      requires InRange(ft, point.Contents()) && StatusInRange(ft, status)
      modifies point
      ensures point.Contents() == old(point.Contents())
      ensures var d := point.Contents().(time := status.timePrev, value := status.value);
              InRange(ft, d) && cmd == PutCommand(ft, d)
    {
      var time, value := point.time, point.Value();
      point.time := status.timePrev;
      point.SetValueValid(status.value);
      cmd := Put(ft, point);
      point.time := time;
      point.SetValueValid(value);
    }

    method Cleanup(now: int)
      modifies this
      ensures State() == Cleaned(old(State()), now)
    {
      cleanupCountdown := cleanupCountdown - 1;
      if cleanupCountdown > 0 {
        return;
      }
      cleanupCountdown := CLEANUP_EVERY;
      var deadline := now - MAX_AGE;
      var left := bySeries.Keys;
      while left != {}
        invariant cleanupCountdown == CLEANUP_EVERY && left <= old(bySeries).Keys
        invariant bySeries == map s | s in old(bySeries) && (s in left || !(old(bySeries)[s].time <= deadline))
                              :: old(bySeries)[s]
        decreases left
      {
        var s :| s in left;
        left := left - {s};
        if bySeries[s].time <= deadline {
          bySeries := bySeries - {s};
        }
      }
    }
  }

  // ---- Whole runs over many series ---------------------------------------------------------------------

  /** The points sent for one arrival; a held point differs from the current one in time and value only. */
  function Emits(j: Judgement, d: Datum): seq<Datum> {
    (match j.held case Some(h) => [d.(time := h.t, value := h.value)] case None => [])
    + (if j.isRepeat then [] else [d])
  }

  datatype Run = Run(table: Table, put: seq<Datum>, sent: seq<Datum>)

  function Step(r: Run, a: Arrival): Run {
    Run(Tested(r.table, a.d, a.now), r.put + [a.d], r.sent + Emits(Verdict(r.table, a.d, a.now), a.d))
  }

  function RunOf(arrivals: seq<Arrival>): Run {
    if arrivals == [] then Run(Table(map[], CLEANUP_EVERY), [], [])
    else Step(RunOf(arrivals[..|arrivals| - 1]), arrivals[|arrivals| - 1])
  }

  /** The samples of one series among points of many. */
  function OfSeries(ds: seq<Datum>, s: Bytes): seq<Sample> {
    if ds == [] then []
    else OfSeries(ds[..|ds| - 1], s) + (if ds[|ds| - 1].Series() == s then [SampleOf(ds[|ds| - 1])] else [])
  }

  lemma OfSeriesSnoc(ds: seq<Datum>, d: Datum, s: Bytes)
    ensures OfSeries(ds + [d], s) == OfSeries(ds, s) + if d.Series() == s then [SampleOf(d)] else []
  {
    assert (ds + [d])[..|ds|] == ds;
  }

  /** What one arrival means for one series: cleanup may forget it, and the point may be its own. */
  function EventsAt(r: Run, a: Arrival, s: Bytes): seq<Event> {
    (if s in r.table.bySeries && s !in Cleaned(r.table, a.now).bySeries then [Forgotten] else [])
    + (if a.d.Series() == s then [Seen(SampleOf(a.d))] else [])
  }

  function EventsOf(arrivals: seq<Arrival>, s: Bytes): seq<Event> {
    if arrivals == [] then []
    else
      var front, a := arrivals[..|arrivals| - 1], arrivals[|arrivals| - 1];
      EventsOf(front, s) + EventsAt(RunOf(front), a, s)
  }

  lemma FollowEventsAt(events: seq<Event>, r: Run, a: Arrival, s: Bytes)
    ensures var tr := Follow(events);
            var tr' := if s in r.table.bySeries && s !in Cleaned(r.table, a.now).bySeries
                       then Next(tr, Forgotten) else tr;
            Follow(events + EventsAt(r, a, s)) == if a.d.Series() == s then Next(tr', Seen(SampleOf(a.d))) else tr'
  {
    var fs := if s in r.table.bySeries && s !in Cleaned(r.table, a.now).bySeries then [Forgotten] else [];
    assert events + [] == events;
    if fs != [] {
      FollowSnoc(events, Forgotten);
    }
    if a.d.Series() == s {
      FollowSnoc(events + fs, Seen(SampleOf(a.d)));
      ConcatAssoc(events, fs, [Seen(SampleOf(a.d))]);
    } else {
      assert fs + [] == fs;
    }
  }

  lemma EmitsOfSeries(sent: seq<Datum>, j: Judgement, d: Datum, s: Bytes)
    ensures OfSeries(sent + Emits(j, d), s)
         == OfSeries(sent, s) + if d.Series() == s then Sends(j, SampleOf(d)) else []
  {
    var before := OfSeries(sent, s);
    assert before + [] == before && sent + [] == sent;
    if j.held.Some? {
      var h := d.(time := j.held.value.t, value := j.held.value.value);
      OfSeriesSnoc(sent, h, s);
      if j.isRepeat {
        assert Emits(j, d) == [h] && Sends(j, SampleOf(d)) == [SampleOf(h)];
      } else {
        OfSeriesSnoc(sent + [h], d, s);
        ConcatAssoc(sent, [h], [d]);
        ConcatAssoc(before, [SampleOf(h)], [SampleOf(d)]);
      }
    } else if !j.isRepeat {
      OfSeriesSnoc(sent, d, s);
      assert Emits(j, d) == [d] && Sends(j, SampleOf(d)) == [SampleOf(d)];
    } else {
      assert Emits(j, d) == [] && Sends(j, SampleOf(d)) == [];
    }
  }

  /** Series do not disturb each other: every series lives the history of its own events. */
  lemma {:induction false} SeriesAreIndependent(arrivals: seq<Arrival>, s: Bytes)
    ensures var r, tr := RunOf(arrivals), Follow(EventsOf(arrivals, s));
            && Get(r.table.bySeries, s) == tr.st
            && OfSeries(r.put, s) == tr.seen
            && OfSeries(r.sent, s) == tr.sent
  {
    if arrivals != [] {
      var front, a := arrivals[..|arrivals| - 1], arrivals[|arrivals| - 1];
      var r := RunOf(front);
      SeriesAreIndependent(front, s);
      FollowEventsAt(EventsOf(front, s), r, a, s);
      OfSeriesSnoc(r.put, a.d, s);
      EmitsOfSeries(r.sent, Verdict(r.table, a.d, a.now), a.d, s);
    }
  }

  /** In time order for every series, as the decoder's order check leaves the points. */
  ghost predicate Ordered(ds: seq<Datum>, s: Bytes) {
    Increasing(OfSeries(ds, s)) && AfterEpoch(OfSeries(ds, s))
  }

  /**
   Cleanup only forgets a series whose latest point is more than two minutes old: its status is at least
   twelve minutes old, and the latest point is less than ten minutes past it.
   */
  lemma {:induction false} OnlyStaleIsForgotten(arrivals: seq<Arrival>, a: Arrival, s: Bytes)
    requires Ordered(RunOf(arrivals).put, s)
    requires Forgotten in EventsAt(RunOf(arrivals), a, s)
    ensures OfSeries(RunOf(arrivals).put, s) != []
    ensures Last(OfSeries(RunOf(arrivals).put, s)).t < a.now - 2 * MINUTE
  {
    var r, tr := RunOf(arrivals), Follow(EventsOf(arrivals, s));
    SeriesAreIndependent(arrivals, s);
    StatusIsTimely(EventsOf(arrivals, s));
    StaleStatus(tr, r.table, a.now, s);
  }

  lemma {:induction false} StatusIsTimely(events: seq<Event>)
    requires Increasing(Follow(events).seen) && AfterEpoch(Follow(events).seen)
    ensures Inv(Follow(events)) && Timely(Follow(events))
  {
    var seen := Follow(events).seen;
    FollowInv(events);
    SomeGap(seen);
    var gap :| GapsAtMost(seen, gap);
    HeartbeatBound(events, gap);
  }

  lemma StaleStatus(tr: Trace, table: Table, now: int, s: Bytes)
    requires Inv(tr) && Timely(tr) && Get(table.bySeries, s) == tr.st
    requires s in table.bySeries && s !in Cleaned(table, now).bySeries
    ensures tr.seen != [] && Last(tr.seen).t < now - 2 * MINUTE
  {
  }

  lemma SomeGap(s: seq<Sample>)
    requires AfterEpoch(s)
    ensures exists gap :: GapsAtMost(s, gap)
  {
    assert GapsAtMost(s, MAX_INT64);
  }

  /** At every arrival, the latest point of the series, if there is one, is at most two minutes old. */
  ghost predicate Fresh(arrivals: seq<Arrival>, s: Bytes) {
    forall k :: 0 <= k < |arrivals| ==> FreshAt(arrivals[..k], arrivals[k].now, s)
  }

  ghost predicate FreshAt(before: seq<Arrival>, now: int, s: Bytes) {
    var seen := OfSeries(RunOf(before).put, s);
    seen == [] || now - 2 * MINUTE <= Last(seen).t
  }

  lemma {:induction false} OrderedFront(ds: seq<Datum>, d: Datum, s: Bytes)
    requires Ordered(ds + [d], s)
    ensures Ordered(ds, s)
  {
    var before := OfSeries(ds, s);
    OfSeriesSnoc(ds, d, s);
    if d.Series() == s {
      IncreasingFront(before, SampleOf(d));
      assert forall i :: 0 <= i < |before| ==> before[i] == (before + [SampleOf(d)])[i];
    } else {
      assert before + [] == before;
    }
  }

  lemma {:induction false} FreshFront(arrivals: seq<Arrival>, s: Bytes)
    requires arrivals != [] && Fresh(arrivals, s)
    ensures Fresh(arrivals[..|arrivals| - 1], s)
  {
    var front := arrivals[..|arrivals| - 1];
    forall k | 0 <= k < |front| ensures FreshAt(front[..k], front[k].now, s) {
      assert front[..k] == arrivals[..k] && FreshAt(arrivals[..k], arrivals[k].now, s);
    }
  }

  lemma FreshNotForgotten(arrivals: seq<Arrival>, a: Arrival, s: Bytes)
    requires Ordered(RunOf(arrivals).put, s)
    requires FreshAt(arrivals, a.now, s)
    ensures Forgotten !in EventsAt(RunOf(arrivals), a, s)
  {
    if Forgotten in EventsAt(RunOf(arrivals), a, s) {
      OnlyStaleIsForgotten(arrivals, a, s);
    }
  }

  lemma NoneForgotten(events: seq<Event>)
    requires Forgotten !in events
    ensures NeverForgotten(events)
  {
  }

  lemma NeitherForgotten(a: seq<Event>, b: seq<Event>)
    requires NeverForgotten(a) && NeverForgotten(b)
    ensures NeverForgotten(a + b)
  {
  }

  lemma {:induction false} FreshIsNeverForgotten(arrivals: seq<Arrival>, s: Bytes)
    requires Ordered(RunOf(arrivals).put, s) && Fresh(arrivals, s)
    ensures NeverForgotten(EventsOf(arrivals, s))
  {
    if arrivals != [] {
      var front, last := arrivals[..|arrivals| - 1], arrivals[|arrivals| - 1];
      OrderedFront(RunOf(front).put, last.d, s);
      FreshFront(arrivals, s);
      FreshIsNeverForgotten(front, s);
      assert front == arrivals[..|front|] && FreshAt(arrivals[..|front|], last.now, s);
      FreshNotForgotten(front, last, s);
      NoneForgotten(EventsAt(RunOf(front), last, s));
      NeitherForgotten(EventsOf(front, s), EventsAt(RunOf(front), last, s));
    }
  }

  /**
   Every series of every interleaved run is drawn by what was sent exactly as by what was put, between the
   first and the last point sent, as long as its points keep coming within two minutes of the clock.
   */
  lemma {:induction false} FreshSeriesIsFaithful(arrivals: seq<Arrival>, s: Bytes)
    requires Ordered(RunOf(arrivals).put, s) && Fresh(arrivals, s)
    ensures var put, sent := OfSeries(RunOf(arrivals).put, s), OfSeries(RunOf(arrivals).sent, s);
            put != [] ==> Selection(put, sent) && Agree(put, sent)
                          && (exists mark :: Tail(put, sent, mark))
  {
    var events := EventsOf(arrivals, s);
    SeriesAreIndependent(arrivals, s);
    FreshIsNeverForgotten(arrivals, s);
    NeverForgottenIsClean(events);
    FaithfulIff(events);
    if Follow(events).seen != [] {
      assert Tail(Follow(events).seen, Follow(events).sent, Follow(events).mark);
    }
  }
}
