/** Points of two series, one a second, that fill the calls up to a cleanup. */
module Filler {
  import opened Bytes
  import opened Points

  const TAGS: Bytes := [32, 104, 61, 97]
  const WATCHED: Bytes := [120] + TAGS
  const OTHER: Bytes := [121] + TAGS

  /** Points arrive when they are stamped, on whole seconds, one after the other. */
  ghost predicate OnTheClock(arrivals: seq<Arrival>) {
    && (forall i :: 0 <= i < |arrivals| ==> arrivals[i].d.time == arrivals[i].now && arrivals[i].now % SECOND == 0)
    && forall i, j :: 0 <= i < j < |arrivals| ==> arrivals[i].now < arrivals[j].now
  }

  function At(second: int, metric: byte, value: int): Arrival {
    Arrival(Datum(second * SECOND, Int(value), [metric], TAGS), second * SECOND)
  }

  lemma OtherSeries(second: int)
    ensures At(second, 121, 0).d.Series() == OTHER != WATCHED
  {
    assert OTHER[0] == 121 && WATCHED[0] == 120;
  }

  /** Points of the other series, one a second. */
  function Fill(n: nat): seq<Arrival> {
    if n == 0 then [] else Fill(n - 1) + [At(n, 121, 0)]
  }

  lemma {:induction false} FillOnTheClock(n: nat)
    ensures |Fill(n)| == n && OnTheClock(Fill(n))
    ensures forall i :: 0 <= i < n ==> Fill(n)[i].now == (i + 1) * SECOND
  {
    if n > 0 {
      FillOnTheClock(n - 1);
    }
  }
}
