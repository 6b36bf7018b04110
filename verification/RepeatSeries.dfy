/**
 What the repeat suppressor does to one series: a state machine that drops the inside of constant runs, and the
 proof of when the points it sends draw the same function as the points it saw.
 */
module RepeatSeries {
  import opened Bytes
  import opened Collections
  import opened Points
  import opened Interpolation

  const HEARTBEAT: int := 10 * MINUTE

  /** The last point that mattered, how far into a run of repeats we are (2, 1, 0), and the last repeat. */
  datatype Status = Status(time: int, value: Value, n: nat, timePrev: int)

  /** The verdict on one point: the new status, a held sample to send first, and whether to drop the point. */
  datatype Judgement = Judgement(status: Status, held: Option<Sample>, isRepeat: bool)

  function Judge(st: Option<Status>, s: Sample): Judgement {
    match st
    case None => Judgement(Status(s.t, s.value, 2, 0), None, false)
    case Some(r) =>
      var isRepeat := s.t > r.time && s.value == r.value;
      if isRepeat && Wrap64(s.t - r.time) >= HEARTBEAT then
        Judgement(Status(s.t, s.value, 1, 0), None, false)
      else if isRepeat then
        Judgement(r.(timePrev := s.t, n := if r.n > 0 then r.n - 1 else 0), None, r.n != 2)
      else
        Judgement(Status(s.t, s.value, 2, 0),
                  if r.n == 0 then Some(Sample(r.timePrev, r.value)) else None, false)
  }

  /** What is sent for a point: the held sample, then the point itself unless it is dropped. */
  function Sends(j: Judgement, s: Sample): seq<Sample> {
    (match j.held case Some(h) => [h] case None => []) + (if j.isRepeat then [] else [s])
  }

  /** The life of a series: its points arrive, and cleanup may forget it. */
  datatype Event = Seen(s: Sample) | Forgotten

  /** A history: the status, what was seen, what was sent, and where the last sent sample is among the seen. */
  datatype Trace = Trace(st: Option<Status>, seen: seq<Sample>, sent: seq<Sample>, mark: int)

  function Next(tr: Trace, e: Event): Trace {
    match e
    case Forgotten => tr.(st := None)
    case Seen(s) =>
      var j := Judge(tr.st, s);
      Trace(Some(j.status), tr.seen + [s], tr.sent + Sends(j, s), if j.isRepeat then tr.mark else |tr.seen|)
  }

  function Follow(events: seq<Event>): Trace {
    if events == [] then Trace(None, [], [], 0)
    else Next(Follow(events[..|events| - 1]), events[|events| - 1])
  }

  // ---- Invariant ---------------------------------------------------------------------------------------

  /** Everything since the last sent sample is a constant run. */
  ghost predicate Tail(seen: seq<Sample>, sent: seq<Sample>, mark: int) {
    && seen != [] && sent != [] && 0 <= mark < |seen|
    && seen[mark] == Last(sent)
    && forall i :: mark <= i < |seen| ==> seen[i].value == seen[mark].value
  }

  /** The sent samples are a time-ordered selection of the seen ones, from the first on. */
  ghost predicate Selection(seen: seq<Sample>, sent: seq<Sample>) {
    && Increasing(seen) && Increasing(sent)
    && seen != [] && sent != [] && sent[0] == seen[0]
    && forall q :: q in sent ==> q in seen
  }

  ghost predicate Inv(tr: Trace) {
    if tr.seen == [] then tr.sent == [] && tr.st.None?
    else
      && Selection(tr.seen, tr.sent) && Tail(tr.seen, tr.sent, tr.mark)
      && (tr.st.Some? ==>
            var r := tr.st.value;
            && r.n <= 2 && r.value == Last(tr.seen).value && r.time <= tr.seen[tr.mark].t
            && (r.n > 0 ==> tr.mark == |tr.seen| - 1)
            && (r.n == 0 ==> tr.mark < |tr.seen| - 1 && r.timePrev == Last(tr.seen).t))
  }

  lemma IncreasingFront(s: seq<Sample>, q: Sample)
    requires Increasing(s + [q])
    ensures Increasing(s) && (s != [] ==> Last(s).t < q.t)
  {
    assert forall i :: 0 <= i < |s| ==> s[i] == (s + [q])[i];
    assert (s + [q])[|s|] == q;
  }

  lemma IncreasingSnoc(s: seq<Sample>, q: Sample)
    requires Increasing(s) && (s != [] ==> Last(s).t < q.t)
    ensures Increasing(s + [q])
  {
  }

  lemma SelectionSnoc(seen: seq<Sample>, sent: seq<Sample>, mark: int, q: Sample)
    requires Selection(seen, sent) && Tail(seen, sent, mark) && Increasing(seen + [q])
    ensures Selection(seen + [q], sent + [q]) && Tail(seen + [q], sent + [q], |seen|)
    ensures Selection(seen + [q], sent)
    ensures q.value == seen[mark].value ==> Tail(seen + [q], sent, mark)
  {
    IncreasingFront(seen, q);
    assert seen[mark].t <= Last(seen).t;
    IncreasingSnoc(sent, q);
    assert forall x :: x in sent + [q] ==> x in sent || x == q;
    assert (seen + [q])[|seen|] == q;
  }

  lemma SelectionHeld(seen: seq<Sample>, sent: seq<Sample>, mark: int)
    requires Selection(seen, sent) && Tail(seen, sent, mark) && mark < |seen| - 1
    ensures Selection(seen, sent + [Last(seen)]) && Tail(seen, sent + [Last(seen)], |seen| - 1)
  {
    IncreasingSnoc(sent, Last(seen));
    assert forall x :: x in sent + [Last(seen)] ==> x in sent || x == Last(seen);
  }

  /** How the point is sent, in terms of what was seen: dropped, straight, or after the held sample. */
  lemma SendsAre(tr: Trace, s: Sample)
    requires Inv(tr) && tr.seen != [] && Last(tr.seen).t < s.t
    ensures var j := Judge(tr.st, s);
            tr.sent + Sends(j, s)
            == if j.isRepeat then tr.sent
               else if j.held.Some? then tr.sent + [Last(tr.seen)] + [s] else tr.sent + [s]
    ensures Judge(tr.st, s).held.Some? ==> tr.mark < |tr.seen| - 1
  {
    var j := Judge(tr.st, s);
    if j.held.Some? {
      assert j.held.value == Last(tr.seen);
      ConcatAssoc(tr.sent, [Last(tr.seen)], [s]);
    }
  }

  /** The status after a point fits what was seen and sent: all but the selection, which is proved apart. */
  lemma InvSeen(tr: Trace, s: Sample)
    requires Inv(tr) && tr.seen != [] && Increasing(tr.seen + [s])
    requires var q := Next(tr, Seen(s)); Selection(q.seen, q.sent) && Tail(q.seen, q.sent, q.mark)
    ensures Inv(Next(tr, Seen(s)))
  {
    IncreasingFront(tr.seen, s);
    assert tr.seen[tr.mark].t <= Last(tr.seen).t;
  }

  lemma SelectionNext(tr: Trace, s: Sample)
    requires Inv(tr) && tr.seen != [] && Increasing(tr.seen + [s])
    ensures var q := Next(tr, Seen(s)); Selection(q.seen, q.sent) && Tail(q.seen, q.sent, q.mark)
  {
    IncreasingFront(tr.seen, s);
    SendsAre(tr, s);
    if Judge(tr.st, s).held.Some? {
      SelectionHeld(tr.seen, tr.sent, tr.mark);
      SelectionSnoc(tr.seen, tr.sent + [Last(tr.seen)], |tr.seen| - 1, s);
    } else {
      SelectionSnoc(tr.seen, tr.sent, tr.mark, s);
    }
  }

  lemma InvNext(tr: Trace, e: Event)
    requires Inv(tr) && (e.Seen? ==> Increasing(tr.seen + [e.s]))
    ensures Inv(Next(tr, e))
  {
    if e.Seen? {
      if tr.seen != [] {
        SelectionNext(tr, e.s);
        InvSeen(tr, e.s);
      } else {
        assert tr.sent + Sends(Judge(tr.st, e.s), e.s) == [e.s];
      }
    }
  }

  lemma {:induction false} FollowInv(events: seq<Event>)
    requires Increasing(Follow(events).seen)
    ensures Inv(Follow(events))
  {
    if events != [] {
      var front, e := events[..|events| - 1], events[|events| - 1];
      if e.Seen? {
        IncreasingFront(Follow(front).seen, e.s);
      }
      FollowInv(front);
      InvNext(Follow(front), e);
    }
  }

  /** A run that is held back ends in something seen. */
  ghost predicate HeldWasSeen(tr: Trace) {
    && (forall q :: q in tr.sent ==> q in tr.seen)
    && (tr.st.Some? && tr.st.value.n == 0 ==> Sample(tr.st.value.timePrev, tr.st.value.value) in tr.seen)
  }

  /** Nothing is ever sent that was not seen, in whatever order the points come. */
  lemma {:induction false} SentWereSeen(events: seq<Event>)
    ensures HeldWasSeen(Follow(events))
  {
    if events != [] {
      var tr, e := Follow(events[..|events| - 1]), events[|events| - 1];
      SentWereSeen(events[..|events| - 1]);
      if e.Seen? {
        assert forall q :: q in tr.seen + [e.s] <==> q in tr.seen || q == e.s;
        assert forall q :: q in Sends(Judge(tr.st, e.s), e.s) ==> q in tr.seen || q == e.s;
      }
    }
  }

  // ---- Same function -----------------------------------------------------------------------------------

  /** From the first to the last sample sent, what was sent draws the same function as what was seen. */
  ghost predicate Agree(seen: seq<Sample>, sent: seq<Sample>)
    requires Increasing(seen) && Increasing(sent)
  {
    seen == [] || sent == []
    || forall t: real :: sent[0].t as real <= t <= Last(sent).t as real ==> Draw(sent, t) == Draw(seen, t)
  }

  /** Seeing more does not change agreement over what was sent. */
  lemma AgreeSeen(seen: seq<Sample>, sent: seq<Sample>, mark: int, s: Sample)
    requires Increasing(seen + [s]) && Increasing(sent) && Tail(seen, sent, mark)
    ensures Increasing(seen) && (Agree(seen + [s], sent) <==> Agree(seen, sent))
  {
    IncreasingFront(seen, s);
    assert Last(sent).t <= Last(seen).t;
    forall t: real | t <= Last(sent).t as real ensures Draw(seen + [s], t) == Draw(seen, t) {
      DrawExtends(seen, s, t);
    }
  }

  /**
   Sending the current point straight after the last sent one is right exactly when nothing was held back, or
   the point has the value of the run that was held back.
   */
  lemma AgreeSend(seen: seq<Sample>, sent: seq<Sample>, mark: int, s: Sample)
    requires Increasing(seen + [s]) && Increasing(sent + [s]) && Tail(seen, sent, mark)
    ensures Increasing(seen) && Increasing(sent)
    ensures Agree(seen + [s], sent + [s])
            <==> Agree(seen, sent) && (mark == |seen| - 1 || s.value.Num() == Last(seen).value.Num())
  {
    IncreasingFront(seen, s);
    IncreasingFront(sent, s);
    var seen', sent' := seen + [s], sent + [s];
    forall t: real | t <= Last(sent).t as real
      ensures Draw(seen', t) == Draw(seen, t) && Draw(sent', t) == Draw(sent, t)
    {
      assert Last(sent).t <= Last(seen).t;
      DrawExtends(seen, s, t);
      DrawExtends(sent, s, t);
    }
    var direct := mark == |seen| - 1 || s.value.Num() == Last(seen).value.Num();
    if direct {
      forall t: real | Last(sent).t as real <= t <= s.t as real ensures Draw(seen', t) == Draw(sent', t) {
        if mark == |seen| - 1 {
          DrawIsLine(seen', |seen| - 1, t);
          DrawIsLine(sent', |sent| - 1, t);
        } else {
          DrawFlat(seen', mark, t);
          DrawFlat(sent', |sent| - 1, t);
        }
      }
    } else {
      var t := Last(seen).t as real;
      DrawExtends(seen, s, t);
      DrawAtLast(seen);
      DrawIsLine(sent', |sent| - 1, t);
      LineSlopes(Last(sent), s, t);
      assert Draw(sent', t) != Draw(seen', t);
      assert sent'[0].t as real <= t <= Last(sent').t as real;
    }
  }

  /** Sending the held sample never changes agreement: it ends a constant run. */
  lemma AgreeHeld(seen: seq<Sample>, sent: seq<Sample>, mark: int)
    requires Increasing(seen) && Increasing(sent) && Tail(seen, sent, mark) && mark < |seen| - 1
    ensures var sent' := sent + [Last(seen)];
            Increasing(sent') && Tail(seen, sent', |seen| - 1) && (Agree(seen, sent') <==> Agree(seen, sent))
  {
    var h := Last(seen);
    var sent' := sent + [h];
    assert Last(sent).t < h.t;
    IncreasingSnoc(sent, h);
    forall t: real | t <= Last(sent).t as real ensures Draw(sent', t) == Draw(sent, t) {
      DrawExtends(sent, h, t);
    }
    forall t: real | Last(sent).t as real <= t <= h.t as real ensures Draw(seen, t) == Draw(sent', t) {
      DrawFlat(seen, mark, t);
      DrawFlat(sent', |sent| - 1, t);
    }
  }

  /** A point that arrives after its series was forgotten with a run held back, and leaves that run's value. */
  ghost predicate Breaks(tr: Trace, s: Sample) {
    && tr.st.None? && tr.seen != [] && 0 <= tr.mark < |tr.seen| - 1
    && s.value.Num() != Last(tr.seen).value.Num()
  }

  /** A point is sent straight after the last one only when that is right, unless it breaks the line. */
  lemma StraightIsDirect(tr: Trace, s: Sample)
    requires Inv(tr) && tr.seen != []
    requires var j := Judge(tr.st, s); !j.isRepeat && j.held.None?
    ensures (tr.mark == |tr.seen| - 1 || s.value.Num() == Last(tr.seen).value.Num()) <==> !Breaks(tr, s)
  {
  }

  lemma AgreeNext(tr: Trace, s: Sample)
    requires Inv(tr) && Increasing(tr.seen + [s])
    ensures Inv(Next(tr, Seen(s)))
    ensures Agree(Next(tr, Seen(s)).seen, Next(tr, Seen(s)).sent)
            <==> (tr.seen == [] || Agree(tr.seen, tr.sent)) && !Breaks(tr, s)
  {
    InvNext(tr, Seen(s));
    var j, sent := Judge(tr.st, s), Next(tr, Seen(s)).sent;
    if tr.seen == [] {
      assert tr.seen + [s] == [s] && sent == [s];
    } else {
      IncreasingFront(tr.seen, s);
      SendsAre(tr, s);
      if j.isRepeat {
        assert sent == tr.sent && !Breaks(tr, s);
        AgreeSeen(tr.seen, tr.sent, tr.mark, s);
      } else if j.held.Some? {
        assert sent == tr.sent + [Last(tr.seen)] + [s] && !Breaks(tr, s);
        AgreeHeld(tr.seen, tr.sent, tr.mark);
        AgreeSend(tr.seen, tr.sent + [Last(tr.seen)], |tr.seen| - 1, s);
      } else {
        assert sent == tr.sent + [s];
        StraightIsDirect(tr, s);
        AgreeSend(tr.seen, tr.sent, tr.mark, s);
      }
    }
  }

  /** No held-back run is forgotten just before its value changes. */
  ghost predicate Clean(events: seq<Event>) {
    events == []
    || (var front, e := events[..|events| - 1], events[|events| - 1];
        Clean(front) && (e.Seen? ==> !Breaks(Follow(front), e.s)))
  }

  /**
   For every series and every input with strictly increasing times, the points sent are a time-ordered
   selection of the points seen, and they draw the same function exactly when no run that was held back is
   forgotten just before its value changes. What is not sent at the end has the value last sent.
   */
  lemma {:induction false} FaithfulIff(events: seq<Event>)
    requires Increasing(Follow(events).seen)
    ensures Inv(Follow(events))
    ensures Agree(Follow(events).seen, Follow(events).sent) <==> Clean(events)
  {
    FollowInv(events);
    if events != [] {
      var front, e := events[..|events| - 1], events[|events| - 1];
      if e.Seen? {
        IncreasingFront(Follow(front).seen, e.s);
        FaithfulIff(front);
        AgreeNext(Follow(front), e.s);
      } else {
        FaithfulIff(front);
      }
    }
  }

  ghost predicate NeverForgotten(events: seq<Event>) {
    forall i :: 0 <= i < |events| ==> events[i].Seen?
  }

  lemma {:induction false} NeverForgottenIsClean(events: seq<Event>)
    requires NeverForgotten(events)
    ensures Clean(events)
    ensures Follow(events).seen != [] ==> Follow(events).st.Some?
  {
    if events != [] {
      NeverForgottenIsClean(events[..|events| - 1]);
    }
  }

  lemma FollowSnoc(events: seq<Event>, e: Event)
    ensures Follow(events + [e]) == Next(Follow(events), e)
  {
    assert (events + [e])[..|events|] == events;
  }

  /** A constant run of three: the third point is held back. */
  lemma FollowRun(a: Sample, b: Sample, c: Sample)
    requires a.value == b.value == c.value && 0 <= a.t < b.t < c.t < a.t + HEARTBEAT && c.t <= MAX_INT64
    ensures var tr := Follow([Seen(a), Seen(b), Seen(c)]);
            tr.seen == [a, b, c] && tr.sent == [a, b] && tr.mark == 1
    ensures Follow([Seen(a), Seen(b), Seen(c)]).st == Some(Status(a.t, a.value, 0, c.t))
  {
    FollowSnoc([], Seen(a));
    FollowSnoc([Seen(a)], Seen(b));
    FollowSnoc([Seen(a), Seen(b)], Seen(c));
    assert [] + [Seen(a)] == [Seen(a)] && [Seen(a)] + [Seen(b)] == [Seen(a), Seen(b)];
    assert [Seen(a), Seen(b)] + [Seen(c)] == [Seen(a), Seen(b), Seen(c)];
  }

  lemma FollowForgotten(a: Sample, b: Sample, c: Sample)
    requires a.value == b.value == c.value && 0 <= a.t < b.t < c.t < a.t + HEARTBEAT && c.t <= MAX_INT64
    ensures var events := [Seen(a), Seen(b), Seen(c)] + [Forgotten];
            Clean(events) && Follow(events) == Trace(None, [a, b, c], [a, b], 1)
  {
    var run := [Seen(a), Seen(b), Seen(c)];
    FollowRun(a, b, c);
    FollowSnoc(run, Forgotten);
    NeverForgottenIsClean(run);
    assert (run + [Forgotten])[..3] == run;
  }

  /** A run forgotten with a point held back does break the line, if the next point has another value. */
  lemma {:induction false} ForgettingBreaksTheLine(a: Sample, b: Sample, c: Sample, d: Sample)
    requires a.value == b.value == c.value && 0 <= a.t < b.t < c.t < a.t + HEARTBEAT && c.t < d.t <= MAX_INT64
    requires d.value.Num() != c.value.Num()
    ensures var tr := Follow([Seen(a), Seen(b), Seen(c)] + [Forgotten] + [Seen(d)]);
            Increasing(tr.seen) && Increasing(tr.sent) && !Agree(tr.seen, tr.sent)
  {
    var front := [Seen(a), Seen(b), Seen(c)] + [Forgotten];
    FollowForgotten(a, b, c);
    FollowSnoc(front, Seen(d));
    var events := front + [Seen(d)];
    assert events[..4] == front;
    assert Follow(events).seen == [a, b, c, d];
    assert Breaks(Follow(front), d);
    FaithfulIff(events);
  }

  // ---- Timing ------------------------------------------------------------------------------------------

  ghost predicate AfterEpoch(s: seq<Sample>) {
    forall i :: 0 <= i < |s| ==> 0 <= s[i].t <= MAX_INT64
  }

  ghost predicate GapsAtMost(s: seq<Sample>, gap: int) {
    forall i :: 0 <= i < |s| - 1 ==> s[i + 1].t - s[i].t <= gap
  }

  ghost predicate GapsBelow(s: seq<Sample>, gap: int) {
    forall i :: 0 <= i < |s| - 1 ==> s[i + 1].t - s[i].t < gap
  }

  /** The latest point is less than a heartbeat after the status and after the last point sent. */
  ghost predicate Timely(tr: Trace) {
    && (tr.st.Some? && tr.seen != [] ==> Last(tr.seen).t - tr.st.value.time < HEARTBEAT && 0 <= tr.st.value.time)
    && (tr.seen != [] && tr.sent != [] ==> Last(tr.seen).t - Last(tr.sent).t < HEARTBEAT)
  }

  lemma TimelyNext(tr: Trace, s: Sample, gap: int)
    requires Inv(tr) && Timely(tr) && Increasing(tr.seen + [s]) && AfterEpoch(tr.seen + [s])
    ensures Timely(Next(tr, Seen(s)))
    ensures GapsBelow(tr.sent, HEARTBEAT + gap) && (tr.seen != [] ==> s.t - Last(tr.seen).t <= gap)
            ==> GapsBelow(Next(tr, Seen(s)).sent, HEARTBEAT + gap)
  {
    InvNext(tr, Seen(s));
    var j := Judge(tr.st, s);
    assert (tr.seen + [s])[|tr.seen|] == s;
    if tr.seen != [] {
      IncreasingFront(tr.seen, s);
      SendsAre(tr, s);
    }
  }

  /**
   Heartbeats: a series' latest point is always less than ten minutes past its status; and if the input
   never pauses for more than gap, what is sent never pauses for ten minutes plus gap. Forgetting does not
   change that.
   */
  lemma {:induction false} HeartbeatBound(events: seq<Event>, gap: int)
    requires Increasing(Follow(events).seen) && AfterEpoch(Follow(events).seen)
    requires GapsAtMost(Follow(events).seen, gap)
    ensures Timely(Follow(events)) && GapsBelow(Follow(events).sent, HEARTBEAT + gap)
  {
    if events != [] {
      var front, e := events[..|events| - 1], events[|events| - 1];
      var tr := Follow(front);
      if e.Seen? {
        IncreasingFront(tr.seen, e.s);
        assert forall i :: 0 <= i < |tr.seen| ==> tr.seen[i] == (tr.seen + [e.s])[i];
        assert tr.seen != [] ==> (tr.seen + [e.s])[|tr.seen| - 1 + 1] == e.s;
        HeartbeatBound(front, gap);
        FollowInv(front);
        TimelyNext(tr, e.s, gap);
      } else {
        HeartbeatBound(front, gap);
      }
    }
  }
}
