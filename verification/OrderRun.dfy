/** A run in which the order check lets a series go back in time. */
module OrderRun {
  import opened Points
  import opened Order
  import opened Filler

  const FILLER: nat := CLEANUP_EVERY - 2

  lemma TableSnoc(front: seq<Arrival>, a: Arrival)
    ensures TableAfter(front + [a]) == Checked(TableAfter(front), a.d, a.now)
  {
    assert (front + [a])[..|front|] == front;
  }

  /** While the countdown runs, only the series that arrives gets into the table. */
  lemma NoCleanup(front: seq<Arrival>, a: Arrival)
    requires TableAfter(front).countdown > 1
    ensures var t, u := TableAfter(front), TableAfter(front + [a]);
            && u.countdown == t.countdown - 1 && Cleaned(t, a.now).bySeries == t.bySeries
            && u.bySeries.Keys <= t.bySeries.Keys + {a.d.Series()}
  {
    TableSnoc(front, a);
  }

  ghost predicate Filled(arrivals: seq<Arrival>, n: nat) {
    && TableAfter(arrivals).countdown == CLEANUP_EVERY - n
    && TableAfter(arrivals).bySeries.Keys <= {OTHER} && Times(arrivals, WATCHED) == []
  }

  lemma {:induction false} FillRun(n: nat)
    requires n <= FILLER
    ensures Filled(Fill(n), n)
  {
    if n > 0 {
      FillRun(n - 1);
      NoCleanup(Fill(n - 1), At(n, 121, 0));
      OtherSeries(n);
      TimesSnoc(Fill(n - 1), At(n, 121, 0), WATCHED);
    }
  }

  /** The watched series arrives on the last call before the cleanup. */
  function Watched(): seq<Arrival> { Fill(FILLER) + [At(FILLER + 1, 120, 1)] }

  lemma WatchedRun()
    ensures TableAfter(Watched()).countdown == 1
    ensures Times(Watched(), WATCHED) == [(FILLER + 1) * SECOND]
    ensures WATCHED in TableAfter(Watched()).bySeries
    ensures TableAfter(Watched()).bySeries[WATCHED] == (FILLER + 1) * SECOND
  {
    var a := At(FILLER + 1, 120, 1);
    FillRun(FILLER);
    NoCleanup(Fill(FILLER), a);
    SubsetSize(TableAfter(Fill(FILLER)).bySeries.Keys, {OTHER});
    OtherSeries(0);
    assert a.d.Series() == WATCHED;
    TimesSnoc(Fill(FILLER), a, WATCHED);
    TableSnoc(Fill(FILLER), a);
  }

  /** A quarter of an hour later the cleanup forgets the watched series, and any point of it is let in. */
  lemma LateCallReadmits(a: Arrival)
    requires a.d.Series() == WATCHED && a.now >= (FILLER + 1) * SECOND + MAX_AGE
    ensures Readmits(Watched(), a, WATCHED)
  {
    WatchedRun();
    var t, c := TableAfter(Watched()), Cleaned(TableAfter(Watched()), a.now);
    assert WATCHED !in c.bySeries;
    CleanedIsSubset(t, a.now);
    SubsetSize(c.bySeries.Keys, t.bySeries.Keys - {WATCHED});
    TableIsBounded(Watched());
  }

  /**
   After 99998 points of another series a point of the watched one is accepted; a quarter of an hour later the call
   that cleans up accepts a point of it that is a second older.
   */
  lemma CleanupBreaksTheOrder() returns (arrivals: seq<Arrival>)
    ensures |arrivals| == CLEANUP_EVERY && AllInt64(arrivals) && ClockRuns(arrivals)
    ensures forall i :: 0 <= i < |arrivals| ==>
              arrivals[i].d.time % SECOND == 0 && 0 < arrivals[i].d.time <= arrivals[i].now
    ensures Times(arrivals, WATCHED) == [(FILLER + 1) * SECOND, FILLER * SECOND]
    ensures !Rising(Times(arrivals, WATCHED))
  {
    var a := At(FILLER, 120, 1).(now := (FILLER + 901) * SECOND);
    arrivals := Watched() + [a];
    FillOnTheClock(FILLER);
    WatchedRun();
    LateCallReadmits(a);
    TimesSnoc(Watched(), a, WATCHED);
    assert Times(arrivals, WATCHED)[0] > Times(arrivals, WATCHED)[1];
    WatchedOnTheClock(a);
  }

  lemma WatchedOnTheClock(a: Arrival)
    requires a == At(FILLER, 120, 1).(now := (FILLER + 901) * SECOND)
    ensures var all := Watched() + [a];
            && |all| == CLEANUP_EVERY && AllInt64(all) && ClockRuns(all)
            && forall i :: 0 <= i < |all| ==> all[i].d.time % SECOND == 0 && 0 < all[i].d.time <= all[i].now
  {
    FillOnTheClock(FILLER);
    var fill, all := Fill(FILLER), Watched() + [a];
    assert all[FILLER] == At(FILLER + 1, 120, 1) && all[FILLER + 1] == a;
    forall i | 0 <= i < FILLER
      ensures all[i] == fill[i] && all[i].now == (i + 1) * SECOND == all[i].d.time && all[i].d.time % SECOND == 0
    {
      assert fill[i].now == (i + 1) * SECOND;
    }
  }
}
