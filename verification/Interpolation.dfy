/** The piecewise-linear function that a time-ordered list of samples draws. */
module Interpolation {
  import opened Points

  datatype Sample = Sample(t: int, value: Value)

  ghost predicate Increasing(s: seq<Sample>) {
    forall i, j :: 0 <= i < j < |s| ==> s[i].t < s[j].t
  }

  function Last(s: seq<Sample>): Sample
    requires s != []
  {
    s[|s| - 1]
  }

  /** The line through two samples. */
  function Line(a: Sample, b: Sample, t: real): real
    requires a.t < b.t
  {
    a.value.Num() + (b.value.Num() - a.value.Num()) * ((t - a.t as real) / (b.t - a.t) as real)
  }

  /** The value that the samples draw at time t, which lies between the first and the last of them. */
  ghost function Draw(s: seq<Sample>, t: real): real
    requires s != [] && Increasing(s)
  {
    var n := |s|;
    if n == 1 then s[0].value.Num()
    else if s[n - 2].t as real <= t then Line(s[n - 2], s[n - 1], t)
    else Draw(s[..n - 1], t)
  }

  lemma LineAtEnds(a: Sample, b: Sample)
    requires a.t < b.t
    ensures Line(a, b, a.t as real) == a.value.Num()
    ensures Line(a, b, b.t as real) == b.value.Num()
  {
    var d := (b.t - a.t) as real;
    assert (b.t as real - a.t as real) / d == 1.0;
  }

  lemma LineFlat(a: Sample, b: Sample, t: real)
    requires a.t < b.t && a.value.Num() == b.value.Num()
    ensures Line(a, b, t) == a.value.Num()
  {
  }

  lemma LineSlopes(a: Sample, b: Sample, t: real)
    requires a.t < b.t && a.t as real < t && a.value.Num() != b.value.Num()
    ensures Line(a, b, t) != a.value.Num()
  {
    var q := (t - a.t as real) / (b.t - a.t) as real;
    assert q > 0.0;
    var d := b.value.Num() - a.value.Num();
    assert d * q != 0.0;
  }

  /** Draw is the function that joins neighbouring samples: it is the line through i and i + 1 between them. */
  lemma {:induction false} DrawIsLine(s: seq<Sample>, i: nat, t: real)
    requires Increasing(s) && i + 1 < |s| && s[i].t as real <= t <= s[i + 1].t as real
    ensures Draw(s, t) == Line(s[i], s[i + 1], t)
  {
    var n := |s|;
    if i + 2 < n {
      var front := s[..n - 1];
      DrawIsLine(front, i, t);
      if s[n - 2].t as real <= t {
        assert i + 2 == n - 1 by {
          assert s[n - 2].t <= s[i + 1].t;
        }
        LineAtEnds(s[n - 2], s[n - 1]);
        LineAtEnds(s[i], s[i + 1]);
      }
    }
  }

  /** Later samples do not change what was drawn before. */
  lemma DrawExtends(s: seq<Sample>, q: Sample, t: real)
    requires s != [] && Increasing(s + [q]) && t <= Last(s).t as real
    ensures Increasing(s) && Draw(s + [q], t) == Draw(s, t)
  {
    var n := |s|;
    assert (s + [q])[..n] == s;
    assert forall i :: 0 <= i < n ==> s[i] == (s + [q])[i];
    assert (s + [q])[n - 1] == Last(s) && (s + [q])[n] == q;
    if Last(s).t as real <= t {
      LineAtEnds(Last(s), q);
      DrawAtLast(s);
    }
  }

  lemma DrawAtLast(s: seq<Sample>)
    requires s != [] && Increasing(s)
    ensures Draw(s, Last(s).t as real) == Last(s).value.Num()
  {
    var n := |s|;
    if n > 1 {
      assert s[n - 2].t < s[n - 1].t;
      LineAtEnds(s[n - 2], s[n - 1]);
    }
  }

  /** Where the samples are constant, so is what they draw. */
  lemma {:induction false} DrawFlat(s: seq<Sample>, from: nat, t: real)
    requires Increasing(s) && from < |s|
    requires forall i :: from <= i < |s| ==> s[i].value.Num() == s[from].value.Num()
    requires s[from].t as real <= t <= Last(s).t as real
    ensures Draw(s, t) == s[from].value.Num()
  {
    var n := |s|;
    if n > 1 {
      if s[n - 2].t as real <= t {
        if from == n - 1 {
          LineAtEnds(s[n - 2], s[n - 1]);
        } else {
          LineFlat(s[n - 2], s[n - 1], t);
        }
      } else {
        DrawFlat(s[..n - 1], from, t);
      }
    }
  }
}
