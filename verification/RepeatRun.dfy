/** Whole runs of the suppressor: exactly when a series is drawn faithfully, and a run in which one is not. */
module RepeatRun {
  import opened Bytes
  import opened Points
  import opened Interpolation
  import opened RepeatSeries
  import opened Repeat
  import opened Filler

  /**
   In every interleaved run, a series with increasing times is drawn by what was sent exactly as by what was put,
   if and only if cleanup never forgets it with a point held back just before its value changes.
   */
  lemma RunFaithfulIff(arrivals: seq<Arrival>, s: Bytes)
    requires Increasing(OfSeries(RunOf(arrivals).put, s))
    ensures var put, sent := OfSeries(RunOf(arrivals).put, s), OfSeries(RunOf(arrivals).sent, s);
            Increasing(sent) && (Agree(put, sent) <==> Clean(EventsOf(arrivals, s)))
  {
    SeriesAreIndependent(arrivals, s);
    FaithfulIff(EventsOf(arrivals, s));
  }

  /** Cleanup comes with every 100000th point. */
  lemma {:induction false} CountdownIs(arrivals: seq<Arrival>)
    ensures RunOf(arrivals).table.countdown == 100_000 - |arrivals| % 100_000
  {
    if arrivals != [] {
      CountdownIs(arrivals[..|arrivals| - 1]);
    }
  }

  /**
   Over every run: a series that is remembered is forgotten if and only if this is every 100000th point, and the status
   of the series is at least twelve minutes old.
   */
  lemma {:induction false} ForgottenIff(front: seq<Arrival>, a: Arrival, s: Bytes)
    requires s in RunOf(front).table.bySeries
    ensures Forgotten in EventsAt(RunOf(front), a, s)
            <==> |front| % 100_000 == 99_999
                 && a.now - RunOf(front).table.bySeries[s].time >= 720_000_000_000
  {
    CountdownIs(front);
    var kept := s in Cleaned(RunOf(front).table, a.now).bySeries;
    var events := EventsAt(RunOf(front), a, s);
    if !kept {
      assert events[0] == Forgotten;
    }
  }

  // ---- A run in which the line breaks ------------------------------------------------------------------

  const FILLER: nat := CLEANUP_EVERY - 4

  lemma RunSnoc(front: seq<Arrival>, a: Arrival, s: Bytes)
    ensures RunOf(front + [a]) == Step(RunOf(front), a)
    ensures EventsOf(front + [a], s) == EventsOf(front, s) + EventsAt(RunOf(front), a, s)
  {
    assert (front + [a])[..|front|] == front;
  }

  /** While the countdown runs, nothing is forgotten. */
  lemma NoCleanup(front: seq<Arrival>, a: Arrival, s: Bytes)
    requires RunOf(front).table.countdown > 1
    ensures RunOf(front + [a]).table.countdown == RunOf(front).table.countdown - 1
    ensures EventsOf(front + [a], s)
         == EventsOf(front, s) + if a.d.Series() == s then [Seen(SampleOf(a.d))] else []
  {
    RunSnoc(front, a, s);
    var events := EventsAt(RunOf(front), a, s);
    assert events == if a.d.Series() == s then [Seen(SampleOf(a.d))] else [];
  }

  lemma FillerStep(front: seq<Arrival>, second: int)
    requires RunOf(front).table.countdown > 1
    ensures RunOf(front + [At(second, 121, 0)]).table.countdown == RunOf(front).table.countdown - 1
    ensures EventsOf(front + [At(second, 121, 0)], WATCHED) == EventsOf(front, WATCHED)
  {
    NoCleanup(front, At(second, 121, 0), WATCHED);
    OtherSeries(second);
    assert EventsOf(front, WATCHED) + [] == EventsOf(front, WATCHED);
  }

  lemma {:induction false} FillerRun(n: nat)
    requires n <= FILLER
    ensures RunOf(Fill(n)).table.countdown == CLEANUP_EVERY - n
    ensures EventsOf(Fill(n), WATCHED) == []
  {
    if n > 0 {
      FillerRun(n - 1);
      FillerStep(Fill(n - 1), n);
    }
  }

  /** Three points of the watched series, the last of them held back. */
  function Watched(): seq<Arrival> {
    Fill(FILLER) + [At(FILLER + 1, 120, 1)] + [At(FILLER + 2, 120, 1)] + [At(FILLER + 3, 120, 1)]
  }

  function WatchedSample(i: nat): Sample { Sample((FILLER + i) * SECOND, Int(1)) }

  lemma WatchedRun()
    ensures RunOf(Watched()).table.countdown == 1
    ensures EventsOf(Watched(), WATCHED) == [Seen(WatchedSample(1)), Seen(WatchedSample(2)), Seen(WatchedSample(3))]
  {
    var a0 := Fill(FILLER);
    var a1 := a0 + [At(FILLER + 1, 120, 1)];
    var a2 := a1 + [At(FILLER + 2, 120, 1)];
    FillerRun(FILLER);
    NoCleanup(a0, At(FILLER + 1, 120, 1), WATCHED);
    NoCleanup(a1, At(FILLER + 2, 120, 1), WATCHED);
    NoCleanup(a2, At(FILLER + 3, 120, 1), WATCHED);
  }

  /** A quarter of an hour later the call that cleans up forgets the watched series before its point is seen. */
  lemma LateCallForgets(a: Arrival)
    requires a.d.Series() == WATCHED && a.now >= (FILLER + 1) * SECOND + MAX_AGE
    ensures EventsOf(Watched() + [a], WATCHED) == EventsOf(Watched(), WATCHED) + [Forgotten] + [Seen(SampleOf(a.d))]
  {
    WatchedRun();
    RunSnoc(Watched(), a, WATCHED);
    SeriesAreIndependent(Watched(), WATCHED);
    FollowRun(WatchedSample(1), WatchedSample(2), WatchedSample(3));
    var r := RunOf(Watched());
    assert WATCHED in r.table.bySeries && r.table.bySeries[WATCHED].time == (FILLER + 1) * SECOND;
    assert EventsAt(r, a, WATCHED) == [Forgotten] + [Seen(SampleOf(a.d))];
  }

  lemma WatchedOnTheClock(a: Arrival)
    requires a.now == a.d.time > (FILLER + 3) * SECOND && a.now % SECOND == 0
    ensures |Watched() + [a]| == CLEANUP_EVERY && OnTheClock(Watched() + [a])
  {
    FillOnTheClock(FILLER);
    var all := Watched() + [a];
    assert forall i :: 0 <= i < FILLER ==> all[i] == Fill(FILLER)[i];
    assert all[FILLER] == At(FILLER + 1, 120, 1) && all[FILLER + 1] == At(FILLER + 2, 120, 1);
    assert all[FILLER + 2] == At(FILLER + 3, 120, 1) && all[FILLER + 3] == a;
  }

  /**
   A run of the suppressor whose output draws a function that the input does not: after 99996 points of another
   series the watched one reports 1 three seconds in a row and, a quarter of an hour later, 2. The point that was
   held back is lost with the status of its series.
   */
  lemma CleanupBreaksTheLine() returns (arrivals: seq<Arrival>)
    ensures |arrivals| == CLEANUP_EVERY && OnTheClock(arrivals)
    ensures var put, sent := OfSeries(RunOf(arrivals).put, WATCHED), OfSeries(RunOf(arrivals).sent, WATCHED);
            Increasing(put) && Increasing(sent) && !Agree(put, sent)
  {
    var last := At(FILLER + 900, 120, 2);
    arrivals := Watched() + [last];
    WatchedOnTheClock(last);
    WatchedRun();
    LateCallForgets(last);
    SeriesAreIndependent(arrivals, WATCHED);
    ForgettingBreaksTheLine(WatchedSample(1), WatchedSample(2), WatchedSample(3), SampleOf(last.d));
  }
}
