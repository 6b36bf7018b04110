/** The decoder's order check: bounded memory of the latest time of every series. */
module Order {
  import opened Bytes
  import opened Points

  const MAX_SERIES: nat := 100000
  const MAX_AGE: int := 15 * MINUTE
  const MAX_STEP: int := 24 * HOUR
  const CLEANUP_EVERY: int := 100000

  datatype OrderError = TooManySeries | WentBack | Collision | TooFarAhead

  datatype Table = Table(bySeries: map<Bytes, int>, countdown: int)

  /** Go's Time.Sub saturates at the largest durations. */
  function Sub(a: int, b: int): int {
    if a - b > MAX_INT64 then MAX_INT64 else if a - b < MIN_INT64 then MIN_INT64 else a - b
  }

  function Cleaned(t: Table, now: int): Table {
    if t.countdown - 1 > 0 then t.(countdown := t.countdown - 1)
    else Table(map s | s in t.bySeries && t.bySeries[s] > now - MAX_AGE :: t.bySeries[s], CLEANUP_EVERY)
  }

  /** Why a point is refused, if it is. */
  function Refusal(t: Table, d: Datum): Option<OrderError> {
    if d.Series() !in t.bySeries then
      if |t.bySeries| == MAX_SERIES then Some(TooManySeries) else None
    else
      var step := Sub(d.time, t.bySeries[d.Series()]);
      if step < 0 then Some(WentBack)
      else if step == 0 then Some(Collision)
      else if step > MAX_STEP then Some(TooFarAhead)
      else None
  }

  function Checked(t: Table, d: Datum, now: int): Table {
    var c := Cleaned(t, now);
    if Refusal(c, d).Some? then c else c.(bySeries := c.bySeries[d.Series() := d.time])
  }

  class OrderCheck {
    var bySeries: map<Bytes, int>
    var cleanupCountdown: int

    function State(): Table
      reads this
    {
      Table(bySeries, cleanupCountdown)
    }

    constructor ()
      ensures State() == Table(map[], CLEANUP_EVERY)
    {
      bySeries, cleanupCountdown := map[], CLEANUP_EVERY;
    }

    method ValidOrder(p: Point, now: int) returns (err: Option<OrderError>)
      modifies this
      ensures State() == Checked(old(State()), p.Contents(), now)
      ensures err == Refusal(Cleaned(old(State()), now), p.Contents())
    {
      Cleanup(now);
      var series := p.metric + p.tags;
      if series !in bySeries {
        if |bySeries| == MAX_SERIES {
          return Some(TooManySeries);
        }
        bySeries := bySeries[series := p.time];
        return None;
      }
      var step := Sub(p.time, bySeries[series]);
      if step < 0 {
        return Some(WentBack);
      }
      if step == 0 {
        return Some(Collision);
      }
      if step > MAX_STEP {
        return Some(TooFarAhead);
      }
      bySeries := bySeries[series := p.time];
      return None;
    }

    method Cleanup(now: int)
      modifies this
      ensures State() == Cleaned(old(State()), now)
    {
      cleanupCountdown := cleanupCountdown - 1;
      if cleanupCountdown > 0 {
        return;
      }
      cleanupCountdown := CLEANUP_EVERY;
      var deadline := now - MAX_AGE;
      var left := bySeries.Keys;
      while left != {}
        invariant cleanupCountdown == CLEANUP_EVERY && left <= old(bySeries).Keys
        invariant bySeries == map s | s in old(bySeries) && (s in left || old(bySeries)[s] > deadline)
                              :: old(bySeries)[s]
        decreases left
      {
        var s :| s in left;
        left := left - {s};
        if !(bySeries[s] > deadline) {
          bySeries := bySeries - {s};
        }
      }
    }
  }

  // ---- Whole runs --------------------------------------------------------------------------------------

  function TableAfter(arrivals: seq<Arrival>): Table {
    if arrivals == [] then Table(map[], CLEANUP_EVERY)
    else
      var a := arrivals[|arrivals| - 1];
      Checked(TableAfter(arrivals[..|arrivals| - 1]), a.d, a.now)
  }

  /** The points that pass, in order. */
  function Accepted(arrivals: seq<Arrival>): seq<Datum> {
    if arrivals == [] then []
    else
      var front, a := arrivals[..|arrivals| - 1], arrivals[|arrivals| - 1];
      Accepted(front) + if Refusal(Cleaned(TableAfter(front), a.now), a.d) == None then [a.d] else []
  }

  /** The times accepted for a series since it was last forgotten. */
  function Epoch(arrivals: seq<Arrival>, s: Bytes): seq<int> {
    if arrivals == [] then []
    else
      var front, a := arrivals[..|arrivals| - 1], arrivals[|arrivals| - 1];
      var c := Cleaned(TableAfter(front), a.now);
      (if s in c.bySeries then Epoch(front, s) else [])
      + (if a.d.Series() == s && Refusal(c, a.d) == None then [a.d.time] else [])
  }

  /** Strictly increasing, by at most 24 hours at a time. */
  ghost predicate InStep(ts: seq<int>) {
    forall i :: 0 <= i < |ts| - 1 ==> ts[i] < ts[i + 1] <= ts[i] + MAX_STEP
  }

  /** The table holds the last accepted time of every series not forgotten since, and of no other. */
  ghost predicate Remembers(arrivals: seq<Arrival>, s: Bytes) {
    var t, epoch := TableAfter(arrivals), Epoch(arrivals, s);
    && (s in t.bySeries <==> epoch != [])
    && (epoch != [] ==> t.bySeries[s] == epoch[|epoch| - 1])
  }

  lemma CleanedIsSubset(t: Table, now: int)
    ensures Cleaned(t, now).bySeries.Keys <= t.bySeries.Keys
    ensures forall s :: s in Cleaned(t, now).bySeries ==> Cleaned(t, now).bySeries[s] == t.bySeries[s]
    ensures |Cleaned(t, now).bySeries| <= |t.bySeries|
  {
    SubsetSize(Cleaned(t, now).bySeries.Keys, t.bySeries.Keys);
  }

  lemma {:induction false} SubsetSize<T>(a: set<T>, b: set<T>)
    requires a <= b
    ensures |a| <= |b|
    decreases a
  {
    if a != {} {
      var x :| x in a;
      SubsetSize(a - {x}, b - {x});
    }
  }

  ghost predicate AllInt64(arrivals: seq<Arrival>) {
    forall i :: 0 <= i < |arrivals| ==> IsInt64(arrivals[i].d.time)
  }

  lemma InStepSnoc(ts: seq<int>, t: int)
    requires InStep(ts) && (ts != [] ==> ts[|ts| - 1] < t <= ts[|ts| - 1] + MAX_STEP)
    ensures InStep(ts + [t])
  {
  }

  lemma EpochSnoc(front: seq<Arrival>, a: Arrival, s: Bytes)
    ensures var c := Cleaned(TableAfter(front), a.now);
            var kept := if s in c.bySeries then Epoch(front, s) else [];
            Epoch(front + [a], s)
            == if a.d.Series() == s && Refusal(c, a.d) == None then kept + [a.d.time] else kept
  {
    assert (front + [a])[..|front|] == front;
    var kept := if s in Cleaned(TableAfter(front), a.now).bySeries then Epoch(front, s) else [];
    assert kept + [] == kept;
  }

  lemma RemembersNext(front: seq<Arrival>, a: Arrival, s: Bytes)
    requires Remembers(front, s)
    ensures Remembers(front + [a], s)
  {
    assert (front + [a])[..|front|] == front;
    CleanedIsSubset(TableAfter(front), a.now);
    EpochSnoc(front, a, s);
  }

  lemma EpochStep(front: seq<Arrival>, a: Arrival, s: Bytes)
    requires Remembers(front, s) && InStep(Epoch(front, s)) && IsInt64(a.d.time)
    ensures Remembers(front + [a], s) && InStep(Epoch(front + [a], s))
  {
    RemembersNext(front, a, s);
    EpochSnoc(front, a, s);
    CleanedIsSubset(TableAfter(front), a.now);
    var c := Cleaned(TableAfter(front), a.now);
    if a.d.Series() == s && Refusal(c, a.d) == None {
      PassedIsNext(c, a.d);
      InStepSnoc(if s in c.bySeries then Epoch(front, s) else [], a.d.time);
    }
  }

  lemma PassedIsNext(t: Table, d: Datum)
    requires Refusal(t, d) == None && IsInt64(d.time)
    ensures d.Series() in t.bySeries ==>
              t.bySeries[d.Series()] < d.time <= t.bySeries[d.Series()] + MAX_STEP
  {
  }

  /**
   Between evictions the accepted times of every series strictly increase, by at most 24 hours at a time,
   and the table remembers exactly the last of them.
   */
  lemma {:induction false} AcceptedInStep(arrivals: seq<Arrival>, s: Bytes)
    requires AllInt64(arrivals)
    ensures Remembers(arrivals, s) && InStep(Epoch(arrivals, s))
  {
    if arrivals != [] {
      var front, a := arrivals[..|arrivals| - 1], arrivals[|arrivals| - 1];
      assert arrivals == front + [a];
      AcceptedInStep(front, s);
      EpochStep(front, a, s);
    }
  }

  /** The last time accepted for a series, if cleanup has not forgotten it by the time of the next arrival. */
  function LastKnown(front: seq<Arrival>, a: Arrival): Option<int> {
    var epoch, s := Epoch(front, a.d.Series()), a.d.Series();
    if s in Cleaned(TableAfter(front), a.now).bySeries && epoch != [] then Some(epoch[|epoch| - 1]) else None
  }

  /** What the check says of an arrival after these. */
  function Says(front: seq<Arrival>, a: Arrival): Option<OrderError> {
    Refusal(Cleaned(TableAfter(front), a.now), a.d)
  }

  /**
   Over every run, what becomes of the next point: of a series that is known it is accepted if and only if it is later
   than the last one accepted, by at most 24 hours; else the error says whether it went back, collides or is too far
   ahead. Of a series that is not known it is accepted unless 100000 series are.
   */
  lemma RefusedIff(front: seq<Arrival>, a: Arrival)
    requires AllInt64(front) && IsInt64(a.d.time)
    ensures match LastKnown(front, a)
            case Some(last) =>
              && (Says(front, a) == None <==> last < a.d.time <= last + 86_400_000_000_000)
              && (Says(front, a) == Some(WentBack) <==> a.d.time < last)
              && (Says(front, a) == Some(Collision) <==> a.d.time == last)
              && (Says(front, a) == Some(TooFarAhead) <==> a.d.time > last + 86_400_000_000_000)
            case None =>
              var known := |Cleaned(TableAfter(front), a.now).bySeries|;
              Says(front, a) == if known == 100_000 then Some(TooManySeries) else None
  {
    var s := a.d.Series();
    AcceptedInStep(front, s);
    CleanedIsSubset(TableAfter(front), a.now);
    TimesAreInt64(front, s);
  }

  lemma {:induction false} TimesAreInt64(arrivals: seq<Arrival>, s: Bytes)
    requires AllInt64(arrivals)
    ensures forall i :: 0 <= i < |Epoch(arrivals, s)| ==> IsInt64(Epoch(arrivals, s)[i])
  {
    if arrivals != [] {
      var front, a := arrivals[..|arrivals| - 1], arrivals[|arrivals| - 1];
      assert arrivals == front + [a];
      TimesAreInt64(front, s);
      EpochSnoc(front, a, s);
    }
  }

  /** At most 100000 series are ever tracked. */
  lemma {:induction false} TableIsBounded(arrivals: seq<Arrival>)
    ensures |TableAfter(arrivals).bySeries| <= MAX_SERIES
  {
    if arrivals != [] {
      var front, a := arrivals[..|arrivals| - 1], arrivals[|arrivals| - 1];
      TableIsBounded(front);
      CleanedIsSubset(TableAfter(front), a.now);
      var c := Cleaned(TableAfter(front), a.now);
      if a.d.Series() in c.bySeries {
        assert c.bySeries[a.d.Series() := a.d.time].Keys == c.bySeries.Keys;
      } else {
        assert c.bySeries[a.d.Series() := a.d.time].Keys == c.bySeries.Keys + {a.d.Series()};
      }
    }
  }

  /**
   One arrival: only its own series can get a new time, and only if it is accepted; a series disappears only
   when its latest time is at least fifteen minutes behind the clock.
   */
  lemma ArrivalTouchesLittle(t: Table, d: Datum, now: int, s: Bytes)
    ensures s in t.bySeries && s !in Checked(t, d, now).bySeries ==> t.bySeries[s] <= now - MAX_AGE
    ensures s in Checked(t, d, now).bySeries && (s != d.Series() || Refusal(Cleaned(t, now), d).Some?)
            ==> s in t.bySeries && Checked(t, d, now).bySeries[s] == t.bySeries[s]
  {
    CleanedIsSubset(t, now);
  }

  /** Cleanup comes with every 100000th point. */
  lemma {:induction false} CountdownIs(arrivals: seq<Arrival>)
    ensures TableAfter(arrivals).countdown == 100_000 - |arrivals| % 100_000
  {
    if arrivals != [] {
      CountdownIs(arrivals[..|arrivals| - 1]);
    }
  }

  /**
   Over every run: a series that is known is forgotten if and only if this is every 100000th point, and the last time
   accepted for the series is at least fifteen minutes behind the clock.
   */
  lemma {:induction false} ForgottenIff(front: seq<Arrival>, a: Arrival, s: Bytes)
    requires s in TableAfter(front).bySeries
    ensures s !in Cleaned(TableAfter(front), a.now).bySeries
            <==> |front| % 100_000 == 99_999 && a.now - TableAfter(front).bySeries[s] >= 900_000_000_000
  {
    CountdownIs(front);
  }

  // ---- Over evictions ----------------------------------------------------------------------------------

  function TimesOf(ds: seq<Datum>, s: Bytes): seq<int> {
    if ds == [] then []
    else TimesOf(ds[..|ds| - 1], s) + (if ds[|ds| - 1].Series() == s then [ds[|ds| - 1].time] else [])
  }

  lemma TimesOfSnoc(ds: seq<Datum>, d: Datum, s: Bytes)
    ensures TimesOf(ds + [d], s) == TimesOf(ds, s) + if d.Series() == s then [d.time] else []
  {
    assert (ds + [d])[..|ds|] == ds;
  }

  /** The times accepted for a series in a whole run. */
  function Times(arrivals: seq<Arrival>, s: Bytes): seq<int> { TimesOf(Accepted(arrivals), s) }

  function LastOf(ts: seq<int>): int
    requires ts != []
  {
    ts[|ts| - 1]
  }

  /** The arrival is of the series, and it is accepted. */
  predicate Passes(front: seq<Arrival>, a: Arrival, s: Bytes) {
    a.d.Series() == s && Refusal(Cleaned(TableAfter(front), a.now), a.d) == None
  }

  /** The series was accepted before, is forgotten, and is accepted again. */
  predicate Readmits(front: seq<Arrival>, a: Arrival, s: Bytes) {
    Passes(front, a, s) && Times(front, s) != [] && s !in Cleaned(TableAfter(front), a.now).bySeries
  }

  lemma TimesSnoc(front: seq<Arrival>, a: Arrival, s: Bytes)
    ensures Times(front + [a], s) == if Passes(front, a, s) then Times(front, s) + [a.d.time] else Times(front, s)
  {
    assert (front + [a])[..|front|] == front;
    var accepted := Accepted(front);
    if Refusal(Cleaned(TableAfter(front), a.now), a.d) == None {
      TimesOfSnoc(accepted, a.d, s);
      assert TimesOf(accepted, s) + [] == TimesOf(accepted, s);
    } else {
      assert accepted + [] == accepted;
    }
  }

  /** While the table knows a series, it knows the last time accepted for it. */
  ghost predicate KnowsLast(arrivals: seq<Arrival>, s: Bytes) {
    var t, ts := TableAfter(arrivals), Times(arrivals, s);
    s in t.bySeries ==> ts != [] && t.bySeries[s] == LastOf(ts)
  }

  lemma KnowsLastNext(front: seq<Arrival>, a: Arrival, s: Bytes)
    requires KnowsLast(front, s)
    ensures KnowsLast(front + [a], s)
  {
    assert (front + [a])[..|front|] == front;
    CleanedIsSubset(TableAfter(front), a.now);
    TimesSnoc(front, a, s);
  }

  lemma {:induction false} AlwaysKnowsLast(arrivals: seq<Arrival>, s: Bytes)
    ensures KnowsLast(arrivals, s)
  {
    if arrivals != [] {
      var front, a := arrivals[..|arrivals| - 1], arrivals[|arrivals| - 1];
      assert arrivals == front + [a];
      AlwaysKnowsLast(front, s);
      KnowsLastNext(front, a, s);
    }
  }

  /** Each time follows the one before it. */
  ghost predicate Chained(ts: seq<int>, next: (int, int) -> bool) {
    forall i :: 0 <= i < |ts| - 1 ==> next(ts[i], ts[i + 1])
  }

  lemma ChainedSnoc(ts: seq<int>, t: int, next: (int, int) -> bool)
    ensures Chained(ts + [t], next) <==> Chained(ts, next) && (ts != [] ==> next(LastOf(ts), t))
  {
    var all := ts + [t];
    assert forall i :: 0 <= i < |ts| ==> all[i] == ts[i];
    if Chained(all, next) {
      assert forall i :: 0 <= i < |ts| - 1 ==> next(all[i], all[i + 1]);
      assert ts != [] ==> next(all[|ts| - 1], all[|ts| - 1 + 1]);
    }
  }

  /** Whenever the series is readmitted, its time follows the last one accepted. */
  ghost predicate ReadmitsOnly(arrivals: seq<Arrival>, s: Bytes, next: (int, int) -> bool) {
    arrivals == []
    || (var front, a := arrivals[..|arrivals| - 1], arrivals[|arrivals| - 1];
        ReadmitsOnly(front, s, next) && (Readmits(front, a, s) ==> next(LastOf(Times(front, s)), a.d.time)))
  }

  /** What the check makes sure of as long as it remembers. */
  predicate InOneStep(t: int, u: int) { t < u <= t + MAX_STEP }

  predicate Later(t: int, u: int) { t < u }

  lemma ChainedNext(front: seq<Arrival>, a: Arrival, s: Bytes, next: (int, int) -> bool)
    requires KnowsLast(front, s) && IsInt64(a.d.time) && forall t, u :: InOneStep(t, u) ==> next(t, u)
    ensures Chained(Times(front + [a], s), next)
            <==> Chained(Times(front, s), next) && (Readmits(front, a, s) ==> next(LastOf(Times(front, s)), a.d.time))
  {
    var c, ts := Cleaned(TableAfter(front), a.now), Times(front, s);
    CleanedIsSubset(TableAfter(front), a.now);
    TimesSnoc(front, a, s);
    if Passes(front, a, s) {
      ChainedSnoc(ts, a.d.time, next);
      if s in c.bySeries {
        PassedIsNext(c, a.d);
        assert InOneStep(LastOf(ts), a.d.time);
      }
    }
  }

  lemma {:induction false} ChainedIff(arrivals: seq<Arrival>, s: Bytes, next: (int, int) -> bool)
    requires AllInt64(arrivals) && forall t, u :: InOneStep(t, u) ==> next(t, u)
    ensures Chained(Times(arrivals, s), next) <==> ReadmitsOnly(arrivals, s, next)
  {
    if arrivals != [] {
      var front, a := arrivals[..|arrivals| - 1], arrivals[|arrivals| - 1];
      assert arrivals == front + [a];
      ChainedIff(front, s, next);
      AlwaysKnowsLast(front, s);
      ChainedNext(front, a, s, next);
    }
  }

  /** Strictly increasing over the whole run. */
  ghost predicate Rising(ts: seq<int>) {
    forall i, j :: 0 <= i < j < |ts| ==> ts[i] < ts[j]
  }

  lemma {:induction false} LaterIsRising(ts: seq<int>, i: nat, j: nat)
    requires Chained(ts, Later) && i < j < |ts|
    ensures ts[i] < ts[j]
    decreases j
  {
    assert Later(ts[j - 1], ts[j - 1 + 1]);
    if i < j - 1 {
      LaterIsRising(ts, i, j - 1);
    }
  }

  lemma RisingIsLater(ts: seq<int>)
    ensures Rising(ts) <==> Chained(ts, Later)
  {
    if Chained(ts, Later) {
      forall i, j | 0 <= i < j < |ts| ensures ts[i] < ts[j] {
        LaterIsRising(ts, i, j);
      }
    }
  }

  /**
   The accepted points of a series are totally ordered in time, over evictions and all, if and only if the series is
   never readmitted with a point at or before the last one accepted; and they are at most 24 hours apart if and only
   if that holds of the points with which it is readmitted.
   */
  lemma AcceptedRisesIff(arrivals: seq<Arrival>, s: Bytes)
    requires AllInt64(arrivals)
    ensures Rising(Times(arrivals, s)) <==> ReadmitsOnly(arrivals, s, Later)
    ensures InStep(Times(arrivals, s)) <==> ReadmitsOnly(arrivals, s, InOneStep)
  {
    ChainedIff(arrivals, s, Later);
    ChainedIff(arrivals, s, InOneStep);
    RisingIsLater(Times(arrivals, s));
    var ts := Times(arrivals, s);
    assert InStep(ts) <==> Chained(ts, InOneStep) by {
      if Chained(ts, InOneStep) {
        forall i | 0 <= i < |ts| - 1 ensures ts[i] < ts[i + 1] <= ts[i] + MAX_STEP {
          assert InOneStep(ts[i], ts[i + 1]);
        }
      }
    }
  }

  // ---- What a caller can check -------------------------------------------------------------------------

  ghost predicate ClockRuns(arrivals: seq<Arrival>) {
    forall i, j :: 0 <= i < j < |arrivals| ==> arrivals[i].now <= arrivals[j].now
  }

  /** Points of the series are less than fifteen minutes old when they are decoded. */
  ghost predicate Punctual(arrivals: seq<Arrival>, s: Bytes) {
    forall i :: 0 <= i < |arrivals| && arrivals[i].d.Series() == s ==>
      arrivals[i].now - MAX_AGE < arrivals[i].d.time
  }

  /** A series that is forgotten was last accepted with a time that is fifteen minutes behind by now. */
  ghost predicate ForgottenIsOld(arrivals: seq<Arrival>, s: Bytes) {
    && KnowsLast(arrivals, s)
    && (Times(arrivals, s) != [] && s !in TableAfter(arrivals).bySeries ==>
          arrivals != [] && LastOf(Times(arrivals, s)) <= arrivals[|arrivals| - 1].now - MAX_AGE)
  }

  lemma ForgottenIsOldNext(front: seq<Arrival>, a: Arrival, s: Bytes)
    requires ForgottenIsOld(front, s) && (front != [] ==> front[|front| - 1].now <= a.now)
    ensures ForgottenIsOld(front + [a], s)
    ensures Readmits(front, a, s) ==> LastOf(Times(front, s)) <= a.now - MAX_AGE
  {
    assert (front + [a])[..|front|] == front;
    KnowsLastNext(front, a, s);
    CleanedIsSubset(TableAfter(front), a.now);
    TimesSnoc(front, a, s);
  }

  lemma {:induction false} PunctualReadmits(arrivals: seq<Arrival>, s: Bytes)
    requires ClockRuns(arrivals) && Punctual(arrivals, s)
    ensures ForgottenIsOld(arrivals, s) && ReadmitsOnly(arrivals, s, Later)
  {
    if arrivals != [] {
      var front, a := arrivals[..|arrivals| - 1], arrivals[|arrivals| - 1];
      assert arrivals == front + [a];
      assert forall i :: 0 <= i < |front| ==> front[i] == arrivals[i];
      PunctualReadmits(front, s);
      ForgottenIsOldNext(front, a, s);
    }
  }

  /**
   With a clock that never runs backwards, a series whose points are decoded within fifteen minutes of their time
   is accepted in strictly increasing order over the whole run, however often it is forgotten.
   */
  lemma PunctualSeriesRises(arrivals: seq<Arrival>, s: Bytes)
    requires AllInt64(arrivals) && ClockRuns(arrivals) && Punctual(arrivals, s)
    ensures Rising(Times(arrivals, s))
  {
    PunctualReadmits(arrivals, s);
    AcceptedRisesIff(arrivals, s);
  }
}
