/** Exactly which points of a series the suppressor sends, said of the points themselves and not of its state. */
module RepeatExact {
  import opened Bytes
  import opened Collections
  import opened Points
  import opened Interpolation
  import opened RepeatSeries
  import opened Repeat

  // ---- Constant runs and their anchors -----------------------------------------------------------------

  /** Nothing is remembered: no point came yet, or the series was forgotten since the last one. */
  predicate Lost(events: seq<Event>) { events == [] || events[|events| - 1].Forgotten? }

  /** Of every point seen, whether nothing was remembered when it came. */
  function Anew(events: seq<Event>): seq<bool> {
    if events == [] then []
    else
      var front := events[..|events| - 1];
      Anew(front) + if events[|events| - 1].Seen? then [Lost(front)] else []
  }

  /** A point starts a constant run, if it is the first that is remembered or changes the value. */
  predicate Starts(seen: seq<Sample>, anew: seq<bool>, i: nat)
    requires i < |seen| == |anew|
  {
    i == 0 || anew[i] || seen[i].value != seen[i - 1].value
  }

  /** The point that the ten minutes are counted from: the start of the run, or the last that was past them. */
  function Anchor(seen: seq<Sample>, anew: seq<bool>, i: nat): (a: nat)
    requires i < |seen| == |anew|
    ensures a <= i
  {
    if Starts(seen, anew, i) then i
    else
      var a := Anchor(seen, anew, i - 1);
      if seen[i].t - seen[a].t >= 10 * MINUTE then i else a
  }

  predicate Second(seen: seq<Sample>, anew: seq<bool>, i: nat)
    requires i < |seen| == |anew|
  {
    i > 0 && Starts(seen, anew, i - 1)
  }

  /** The next point changes the value while this one is remembered. */
  predicate Ends(seen: seq<Sample>, anew: seq<bool>, i: nat)
    requires i < |seen| == |anew|
  {
    i + 1 < |seen| && !anew[i + 1] && seen[i + 1].value != seen[i].value
  }

  /** The points that are sent: of every constant run the first two, the last, and one every ten minutes. */
  predicate IsSent(seen: seq<Sample>, anew: seq<bool>, i: nat)
    requires i < |seen| == |anew|
  {
    Anchor(seen, anew, i) == i || Second(seen, anew, i) || Ends(seen, anew, i)
  }

  /** Where they are among the first n points seen. */
  function SentAt(seen: seq<Sample>, anew: seq<bool>, n: nat): (ids: seq<nat>)
    requires n <= |seen| == |anew|
    ensures forall x :: 0 <= x < |ids| ==> ids[x] < n && IsSent(seen, anew, ids[x])
  {
    if n == 0 then []
    else SentAt(seen, anew, n - 1) + if IsSent(seen, anew, n - 1) then [n - 1] else []
  }

  function Pick(seen: seq<Sample>, ids: seq<nat>): (s: seq<Sample>)
    requires forall x :: 0 <= x < |ids| ==> ids[x] < |seen|
    ensures |s| == |ids| && forall x :: 0 <= x < |ids| ==> s[x] == seen[ids[x]]
  {
    if ids == [] then [] else Pick(seen, ids[..|ids| - 1]) + [seen[ids[|ids| - 1]]]
  }

  ghost predicate Ascends(ids: seq<nat>) {
    forall x, y :: 0 <= x < y < |ids| ==> ids[x] < ids[y]
  }

  lemma AscendsSnoc(ids: seq<nat>, n: nat)
    requires Ascends(ids) && forall x :: 0 <= x < |ids| ==> ids[x] < n
    ensures Ascends(ids + [n])
  {
  }

  /** They are all there, in order. */
  lemma {:induction false} SentAtAscends(seen: seq<Sample>, anew: seq<bool>, n: nat)
    requires n <= |seen| == |anew|
    ensures Ascends(SentAt(seen, anew, n))
  {
    if n > 0 {
      SentAtAscends(seen, anew, n - 1);
      AscendsSnoc(SentAt(seen, anew, n - 1), n - 1);
    }
  }

  lemma {:induction false} SentAtHas(seen: seq<Sample>, anew: seq<bool>, n: nat, i: nat)
    requires i < n <= |seen| == |anew| && IsSent(seen, anew, i)
    ensures i in SentAt(seen, anew, n)
  {
    if i < n - 1 {
      SentAtHas(seen, anew, n - 1, i);
    }
  }

  // ---- One more point ----------------------------------------------------------------------------------

  lemma {:induction false} AnchorStays(seen: seq<Sample>, anew: seq<bool>, s: Sample, b: bool, i: nat)
    requires i < |seen| == |anew|
    ensures Starts(seen + [s], anew + [b], i) == Starts(seen, anew, i)
    ensures Anchor(seen + [s], anew + [b], i) == Anchor(seen, anew, i)
    ensures i < |seen| - 1 ==> IsSent(seen + [s], anew + [b], i) == IsSent(seen, anew, i)
  {
    if i > 0 {
      AnchorStays(seen, anew, s, b, i - 1);
    }
  }

  lemma {:induction false} SentAtStays(seen: seq<Sample>, anew: seq<bool>, s: Sample, b: bool, n: nat)
    requires n <= |seen| - 1 && |seen| == |anew|
    ensures SentAt(seen + [s], anew + [b], n) == SentAt(seen, anew, n)
  {
    if n > 0 {
      AnchorStays(seen, anew, s, b, n - 1);
      SentAtStays(seen, anew, s, b, n - 1);
    }
  }

  lemma PickStays(seen: seq<Sample>, s: Sample, ids: seq<nat>)
    requires forall x :: 0 <= x < |ids| ==> ids[x] < |seen|
    ensures Pick(seen + [s], ids) == Pick(seen, ids)
  {
  }

  function Chosen(seen: seq<Sample>, anew: seq<bool>, n: nat): seq<Sample>
    requires n <= |seen| == |anew|
  {
    Pick(seen, SentAt(seen, anew, n))
  }

  lemma ChosenMore(seen: seq<Sample>, anew: seq<bool>, n: nat)
    requires 0 < n <= |seen| == |anew|
    ensures Chosen(seen, anew, n)
         == Chosen(seen, anew, n - 1) + if IsSent(seen, anew, n - 1) then [seen[n - 1]] else []
  {
    var ids := SentAt(seen, anew, n - 1);
    if IsSent(seen, anew, n - 1) {
      assert (ids + [n - 1])[..|ids|] == ids;
    } else {
      assert ids + [] == ids && Pick(seen, ids) + [] == Pick(seen, ids);
    }
  }

  lemma ChosenStays(seen: seq<Sample>, anew: seq<bool>, s: Sample, b: bool, n: nat)
    requires n <= |seen| - 1 && |seen| == |anew|
    ensures Chosen(seen + [s], anew + [b], n) == Chosen(seen, anew, n)
  {
    SentAtStays(seen, anew, s, b, n);
    PickStays(seen, s, SentAt(seen, anew, n));
  }

  /** The latest point is sent after all when the next one ends its run. */
  lemma LastIsSent(seen: seq<Sample>, anew: seq<bool>, s: Sample, b: bool)
    requires seen != [] && |seen| == |anew|
    ensures IsSent(seen + [s], anew + [b], |seen| - 1)
            <==> IsSent(seen, anew, |seen| - 1) || (!b && s.value != seen[|seen| - 1].value)
  {
    var i := |seen| - 1;
    AnchorStays(seen, anew, s, b, i);
    if i > 0 {
      AnchorStays(seen, anew, s, b, i - 1);
    }
  }

  /** What is sent of the run before for one more point: the latest point, if that was held back. */
  function Held(seen: seq<Sample>, anew: seq<bool>, s: Sample, b: bool): seq<Sample>
    requires |seen| == |anew|
  {
    var n := |seen|;
    if n > 0 && !b && s.value != seen[n - 1].value && !IsSent(seen, anew, n - 1) then [seen[n - 1]] else []
  }

  function Own(seen: seq<Sample>, anew: seq<bool>, s: Sample, b: bool): seq<Sample>
    requires |seen| == |anew|
  {
    if IsSent(seen + [s], anew + [b], |seen|) then [s] else []
  }

  lemma HeldGrows(seen: seq<Sample>, anew: seq<bool>, s: Sample, b: bool)
    requires |seen| == |anew|
    ensures Chosen(seen + [s], anew + [b], |seen|) == Chosen(seen, anew, |seen|) + Held(seen, anew, s, b)
  {
    var n := |seen|;
    if n > 0 {
      ChosenMore(seen + [s], anew + [b], n);
      ChosenMore(seen, anew, n);
      ChosenStays(seen, anew, s, b, n - 1);
      LastIsSent(seen, anew, s, b);
    }
  }

  lemma ChosenGrows(seen: seq<Sample>, anew: seq<bool>, s: Sample, b: bool)
    requires |seen| == |anew|
    ensures Chosen(seen + [s], anew + [b], |seen| + 1)
         == Chosen(seen, anew, |seen|) + (Held(seen, anew, s, b) + Own(seen, anew, s, b))
  {
    ChosenMore(seen + [s], anew + [b], |seen| + 1);
    HeldGrows(seen, anew, s, b);
    ConcatAssoc(Chosen(seen, anew, |seen|), Held(seen, anew, s, b), Own(seen, anew, s, b));
  }

  // ---- The state machine does that ---------------------------------------------------------------------

  /** How many more repeats it takes until one is held back. */
  function Left(seen: seq<Sample>, anew: seq<bool>, i: nat): nat
    requires i < |seen| == |anew|
  {
    if Starts(seen, anew, i) then 2 else if Anchor(seen, anew, i) == i || Second(seen, anew, i) then 1 else 0
  }

  /** The status remembers the anchor of the latest point, and how many repeats are left. */
  ghost predicate Remembers(st: Option<Status>, seen: seq<Sample>, anew: seq<bool>, lost: bool)
    requires |seen| == |anew|
  {
    if lost || seen == [] then st == None
    else
      var i := |seen| - 1;
      && st.Some? && st.value.value == seen[i].value && st.value.time == seen[Anchor(seen, anew, i)].t
      && st.value.n == Left(seen, anew, i) && (st.value.n == 0 ==> st.value.timePrev == seen[i].t)
  }

  ghost predicate Exact(tr: Trace, anew: seq<bool>, lost: bool) {
    && |anew| == |tr.seen| && (tr.seen == [] ==> lost)
    && Remembers(tr.st, tr.seen, anew, lost)
    && tr.sent == Chosen(tr.seen, anew, |tr.seen|)
  }

  /** A point that comes when nothing is remembered starts a run and is sent. */
  lemma FirstIsExact(tr: Trace, anew: seq<bool>, s: Sample)
    requires Exact(tr, anew, true)
    ensures Exact(RepeatSeries.Next(tr, Seen(s)), anew + [true], false)
  {
    ChosenGrows(tr.seen, anew, s, true);
    assert Starts(tr.seen + [s], anew + [true], |tr.seen|);
    assert Held(tr.seen, anew, s, true) + Own(tr.seen, anew, s, true) == [s];
  }

  /** A change of value starts a run; the end of the run before is sent if it was held back. */
  lemma ChangeIsExact(tr: Trace, anew: seq<bool>, s: Sample)
    requires Exact(tr, anew, false) && s.value != Last(tr.seen).value
    ensures Exact(RepeatSeries.Next(tr, Seen(s)), anew + [false], false)
  {
    ChosenGrows(tr.seen, anew, s, false);
    var n := |tr.seen|;
    assert Starts(tr.seen + [s], anew + [false], n);
    assert IsSent(tr.seen, anew, n - 1) <==> Left(tr.seen, anew, n - 1) > 0;
    assert Held(tr.seen, anew, s, false) + Own(tr.seen, anew, s, false) == Sends(Judge(tr.st, s), s);
  }

  /** Where a repeat stands: its anchor is that of the point before, unless it is ten minutes past it. */
  lemma RepeatStands(seen: seq<Sample>, anew: seq<bool>, s: Sample)
    requires |seen| == |anew| && seen != [] && s.value == Last(seen).value
    ensures var a, n := Anchor(seen, anew, |seen| - 1), |seen|;
            && !Starts(seen + [s], anew + [false], n)
            && Anchor(seen + [s], anew + [false], n) == (if s.t - seen[a].t >= 10 * MINUTE then n else a)
            && (Second(seen + [s], anew + [false], n) <==> Left(seen, anew, n - 1) == 2)
            && seen[a] == (seen + [s])[a]
  {
    AnchorStays(seen, anew, s, false, |seen| - 1);
  }

  /** The verdict on it. */
  lemma RepeatIsJudged(tr: Trace, anew: seq<bool>, s: Sample)
    requires Exact(tr, anew, false) && s.value == Last(tr.seen).value
    requires Increasing(tr.seen + [s]) && AfterEpoch(tr.seen + [s])
    ensures var j, a, r := Judge(tr.st, s), Anchor(tr.seen, anew, |tr.seen| - 1), tr.st.value;
            var late := s.t - tr.seen[a].t >= 10 * MINUTE;
            && j.held.None? && (j.isRepeat <==> !late && r.n != 2)
            && j.status == if late then Status(s.t, s.value, 1, 0)
                           else r.(timePrev := s.t, n := if r.n > 0 then r.n - 1 else 0)
  {
    var seen', a := tr.seen + [s], Anchor(tr.seen, anew, |tr.seen| - 1);
    assert seen'[a] == tr.seen[a] && seen'[|tr.seen|] == s;
    assert 0 <= seen'[a].t < s.t <= MAX_INT64;
  }

  lemma RepeatSends(tr: Trace, anew: seq<bool>, s: Sample)
    requires Exact(tr, anew, false) && s.value == Last(tr.seen).value
    requires Increasing(tr.seen + [s]) && AfterEpoch(tr.seen + [s])
    ensures Sends(Judge(tr.st, s), s) == Held(tr.seen, anew, s, false) + Own(tr.seen, anew, s, false)
  {
    RepeatStands(tr.seen, anew, s);
    RepeatIsJudged(tr, anew, s);
    assert Held(tr.seen, anew, s, false) == [];
  }

  lemma RepeatRemembers(tr: Trace, anew: seq<bool>, s: Sample)
    requires Exact(tr, anew, false) && s.value == Last(tr.seen).value
    requires Increasing(tr.seen + [s]) && AfterEpoch(tr.seen + [s])
    ensures Remembers(Some(Judge(tr.st, s).status), tr.seen + [s], anew + [false], false)
  {
    RepeatStands(tr.seen, anew, s);
    RepeatIsJudged(tr, anew, s);
  }

  /** A repeat is sent if it is the second of its run, or ten minutes past the anchor. */
  lemma RepeatIsExact(tr: Trace, anew: seq<bool>, s: Sample)
    requires Exact(tr, anew, false) && s.value == Last(tr.seen).value
    requires Increasing(tr.seen + [s]) && AfterEpoch(tr.seen + [s])
    ensures Exact(RepeatSeries.Next(tr, Seen(s)), anew + [false], false)
  {
    RepeatRemembers(tr, anew, s);
    RepeatSends(tr, anew, s);
    ChosenGrows(tr.seen, anew, s, false);
  }

  /**
   For every history of a series with increasing times, evictions included: what is sent is, exactly and in order, of
   every constant run its first two points, one whenever ten minutes have passed, and the last if the run is followed by
   another value before it is forgotten.
   */
  lemma {:induction false} SentExactly(events: seq<Event>)
    requires Increasing(Follow(events).seen) && AfterEpoch(Follow(events).seen)
    ensures Exact(Follow(events), Anew(events), Lost(events))
  {
    if events != [] {
      var front, e := events[..|events| - 1], events[|events| - 1];
      var tr := Follow(front);
      if e.Seen? {
        IncreasingFront(tr.seen, e.s);
        assert forall i :: 0 <= i < |tr.seen| ==> tr.seen[i] == (tr.seen + [e.s])[i];
        SentExactly(front);
        if Lost(front) {
          FirstIsExact(tr, Anew(front), e.s);
        } else if e.s.value != Last(tr.seen).value {
          ChangeIsExact(tr, Anew(front), e.s);
        } else {
          RepeatIsExact(tr, Anew(front), e.s);
        }
      } else {
        SentExactly(front);
        assert Anew(front) + [] == Anew(front);
      }
    }
  }

  /** In every interleaved run, what is queued of a series whose times increase is exactly that. */
  lemma RunSendsExactly(arrivals: seq<Arrival>, s: Bytes)
    requires Ordered(RunOf(arrivals).put, s)
    ensures var put, anew := OfSeries(RunOf(arrivals).put, s), Anew(EventsOf(arrivals, s));
            |anew| == |put| && OfSeries(RunOf(arrivals).sent, s) == Chosen(put, anew, |put|)
  {
    SeriesAreIndependent(arrivals, s);
    SentExactly(EventsOf(arrivals, s));
  }

  // ---- Long runs are thinned out -----------------------------------------------------------------------

  lemma {:induction false} NeverAnew(events: seq<Event>)
    requires NeverForgotten(events)
    ensures |Anew(events)| == |Follow(events).seen| == |events|
    ensures forall i :: 0 < i < |events| ==> !Anew(events)[i]
  {
    if events != [] {
      NeverAnew(events[..|events| - 1]);
    }
  }

  /** Between an anchor and the next one all points count from it. */
  lemma {:induction false} AnchorsBetween(seen: seq<Sample>, anew: seq<bool>, i: nat, j: nat)
    requires i <= j < |seen| == |anew| && Anchor(seen, anew, j) <= i
    ensures Anchor(seen, anew, i) == Anchor(seen, anew, j) && (i < j ==> !Starts(seen, anew, j))
    ensures Anchor(seen, anew, Anchor(seen, anew, j)) == Anchor(seen, anew, j)
    decreases j
  {
    if i < j {
      AnchorsBetween(seen, anew, i, j - 1);
    } else if Anchor(seen, anew, j) < j {
      AnchorsBetween(seen, anew, Anchor(seen, anew, j), j - 1);
    }
  }

  /** A point inside a run that is sent is ten minutes past the one sent before the last. */
  lemma InsideIsLate(seen: seq<Sample>, anew: seq<bool>, a: nat, b: nat, c: nat)
    requires a < b < c < |seen| == |anew| && Increasing(seen)
    requires IsSent(seen, anew, a) && IsSent(seen, anew, b) && IsSent(seen, anew, c)
    requires forall i :: b < i < c ==> !IsSent(seen, anew, i)
    requires forall i :: a < i <= c ==> !Starts(seen, anew, i)
    requires !Ends(seen, anew, c)
    ensures seen[c].t - seen[a].t >= 10 * MINUTE
  {
    assert !Starts(seen, anew, c) && !Starts(seen, anew, c - 1) && !Starts(seen, anew, b + 1);
    var p := Anchor(seen, anew, c - 1);
    assert Anchor(seen, anew, c) == c && seen[c].t - seen[p].t >= 10 * MINUTE;
    if p < a {
      OnlyOneSecond(seen, anew, p, a, b, c);
    }
  }

  /** Of the points that count from an earlier anchor, none but the second of the run is sent before its end. */
  lemma OnlyOneSecond(seen: seq<Sample>, anew: seq<bool>, p: nat, a: nat, b: nat, c: nat)
    requires p < a < b < c < |seen| == |anew| && p == Anchor(seen, anew, c - 1)
    ensures IsSent(seen, anew, b) ==> Ends(seen, anew, b)
  {
    AnchorsBetween(seen, anew, b, c - 1);
    AnchorsBetween(seen, anew, b - 1, c - 1);
  }

  lemma NoneBetween(ids: seq<nat>, q: nat, i: nat)
    requires Ascends(ids) && q + 1 < |ids| && ids[q] < i < ids[q + 1]
    ensures i !in ids
  {
    forall x | 0 <= x < |ids| ensures ids[x] != i {
      assert x <= q || x >= q + 1;
    }
  }

  /** Neighbours among what is sent: nothing between them is. */
  lemma Neighbours(seen: seq<Sample>, anew: seq<bool>, q: nat)
    requires |seen| == |anew| && q + 1 < |SentAt(seen, anew, |seen|)|
    ensures var ids := SentAt(seen, anew, |seen|);
            ids[q] < ids[q + 1] && forall i :: ids[q] < i < ids[q + 1] ==> !IsSent(seen, anew, i)
  {
    var ids := SentAt(seen, anew, |seen|);
    SentAtAscends(seen, anew, |seen|);
    forall i | ids[q] < i < ids[q + 1] ensures !IsSent(seen, anew, i) {
      NoneBetween(ids, q, i);
      if IsSent(seen, anew, i) {
        SentAtHas(seen, anew, |seen|, i);
      }
    }
  }

  lemma SameTimeSameIndex(seen: seq<Sample>, i: nat, j: nat)
    requires Increasing(seen) && i < |seen| && j < |seen| && seen[i] == seen[j]
    ensures i == j
  {
  }

  /** The samples of a constant run that is not interrupted. */
  ghost predicate OneRun(seen: seq<Sample>, a: nat, c: nat) {
    a <= c < |seen| && forall i :: a <= i <= c ==> seen[i].value == seen[a].value
  }

  lemma ThirdIsLate(seen: seq<Sample>, anew: seq<bool>, q: nat)
    requires |seen| == |anew| && Increasing(seen) && (forall i :: 0 < i < |anew| ==> !anew[i])
    requires q + 2 < |SentAt(seen, anew, |seen|)|
    requires var ids := SentAt(seen, anew, |seen|); OneRun(seen, ids[q], ids[q + 2]) && !Ends(seen, anew, ids[q + 2])
    ensures var ids := SentAt(seen, anew, |seen|); seen[ids[q + 2]].t - seen[ids[q]].t >= 10 * MINUTE
  {
    var ids := SentAt(seen, anew, |seen|);
    var a, b, c := ids[q], ids[q + 1], ids[q + 2];
    Neighbours(seen, anew, q);
    Neighbours(seen, anew, q + 1);
    forall i | a < i <= c ensures !Starts(seen, anew, i) {
      assert seen[i].value == seen[a].value == seen[i - 1].value;
    }
    InsideIsLate(seen, anew, a, b, c);
  }

  lemma ThirdIsLateOrLast(seen: seq<Sample>, anew: seq<bool>, sent: seq<Sample>, q: nat, a: nat, c: nat)
    requires |seen| == |anew| && Increasing(seen) && (forall i :: 0 < i < |anew| ==> !anew[i])
    requires sent == Chosen(seen, anew, |seen|) && q + 2 < |sent| && OneRun(seen, a, c)
    requires sent[q] == seen[a] && sent[q + 2] == seen[c]
    ensures seen[c].t - seen[a].t >= 10 * MINUTE || c == |seen| - 1 || seen[c + 1].value != seen[c].value
  {
    var ids := SentAt(seen, anew, |seen|);
    SameTimeSameIndex(seen, ids[q], a);
    SameTimeSameIndex(seen, ids[q + 2], c);
    if !Ends(seen, anew, c) {
      ThirdIsLate(seen, anew, q);
    }
  }

  /**
   A series that is not forgotten: of three points sent one after the other within one constant run, the third is
   ten minutes past the first, or it is the last of the run.
   */
  lemma ConstantRunIsThinned(events: seq<Event>, q: nat, a: nat, c: nat)
    requires NeverForgotten(events) && Increasing(Follow(events).seen) && AfterEpoch(Follow(events).seen)
    requires q + 2 < |Follow(events).sent| && a < |Follow(events).seen| && c < |Follow(events).seen|
    requires Follow(events).sent[q] == Follow(events).seen[a] && Follow(events).sent[q + 2] == Follow(events).seen[c]
    requires OneRun(Follow(events).seen, a, c)
    ensures var tr := Follow(events);
            || tr.sent[q + 2].t - tr.sent[q].t >= 600_000_000_000
            || c == |tr.seen| - 1 || tr.seen[c + 1].value != tr.seen[c].value
  {
    SentExactly(events);
    NeverAnew(events);
    ThirdIsLateOrLast(Follow(events).seen, Anew(events), Follow(events).sent, q, a, c);
  }
}
