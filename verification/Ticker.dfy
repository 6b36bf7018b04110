/** The aligned ticker: a hand-off loop between the clock and a consumer of any speed. */
module Ticker {
  import opened Bytes
  import opened Points

  /** Times since a fixed origin; Go's Truncate rounds down to a whole second. */
  function Truncate(t: int): int { t - t % SECOND }

  /** The pending tick, whether the channel is enabled, the last tick passed on, and all ticks passed on. */
  datatype State = State(tt: int, enabled: bool, lastPassed: Option<int>, out: seq<int>)

  function First(t: int): State { State(Truncate(t), true, None, []) }

  /** A raw tick. The pending tick is overwritten even if the new one is then dropped. */
  function Tick(s: State, t: int): State {
    var tt := Truncate(t);
    if s.lastPassed.Some? && !(tt > s.lastPassed.value) then s.(tt := tt) else s.(tt := tt, enabled := true)
  }

  /** A consumer that is ready takes the pending tick, if the channel is enabled. */
  function Take(s: State): State {
    if s.enabled then State(s.tt, false, Some(s.tt), s.out + [s.tt]) else s
  }

  /** A run: the raw ticks, and after each of them whether the consumer was ready before the next. */
  function Run(raws: seq<int>, ready: seq<bool>): State
    requires 0 < |raws| == |ready|
  {
    var n := |raws| - 1;
    var s := if n == 0 then First(raws[0]) else Tick(Run(raws[..n], ready[..n]), raws[n]);
    if ready[n] then Take(s) else s
  }

  class Ticker {
    var tt: int
    var enabled: bool
    var lastPassed: Option<int>
    ghost var out: seq<int>

    ghost function Now(): State
      reads this
    {
      State(tt, enabled, lastPassed, out)
    }

    constructor (t: int)
      ensures Now() == First(t)
    {
      tt := t - t % SECOND;
      enabled, lastPassed, out := true, None, [];
    }

    method OnTick(t: int)
      modifies this
      ensures Now() == Tick(old(Now()), t)
    {
      tt := t - t % SECOND;
      if lastPassed.Some? && tt <= lastPassed.value {
        return;
      }
      enabled := true;
    }

    method OnSend() returns (t: int)
      requires enabled
      modifies this
      ensures Now() == Take(old(Now())) && t == old(tt)
    {
      t := tt;
      lastPassed := Some(tt);
      out := out + [tt];
      enabled := false;
    }
  }

  // ---- When the ticks passed on are in order -----------------------------------------------------------

  ghost predicate Increasing(out: seq<int>) {
    forall i, j :: 0 <= i < j < |out| ==> out[i] < out[j]
  }

  /** The clock was past the second of its k-th tick, and its next tick, the j-th, is not. */
  ghost predicate FallsBack(raws: seq<int>, k: int, j: int) {
    && 0 <= k < j - 1 && j < |raws|
    && Truncate(raws[j - 1]) > Truncate(raws[k]) >= Truncate(raws[j])
  }

  ghost predicate Steady(raws: seq<int>) { forall k, j :: !FallsBack(raws, k, j) }

  /** An enabled channel means that the pending tick is past the last one passed on. */
  ghost predicate Inv(s: State, raws: seq<int>) {
    && raws != [] && s.tt == Truncate(raws[|raws| - 1])
    && Increasing(s.out) && (forall i :: 0 <= i < |s.out| ==> s.out[i] % SECOND == 0)
    && match s.lastPassed
       case None => s.out == [] && s.enabled
       case Some(last) =>
         && s.out != [] && s.out[|s.out| - 1] == last
         && exists k :: PassedAt(s, raws, k)
  }

  /** The last tick passed on was the k-th; if the channel is enabled again, the clock has moved past it. */
  ghost predicate PassedAt(s: State, raws: seq<int>, k: int) {
    && 0 <= k < |raws| && s.lastPassed == Some(Truncate(raws[k]))
    && (s.enabled ==> k < |raws| - 1 && s.tt > s.lastPassed.value)
  }

  lemma InvTick(s: State, raws: seq<int>, t: int)
    requires Inv(s, raws) && Steady(raws + [t])
    ensures Inv(Tick(s, t), raws + [t])
  {
    var more := raws + [t];
    if s.lastPassed.Some? {
      var k :| PassedAt(s, raws, k);
      var n := |raws| - 1;
      assert more[k] == raws[k] && more[n] == raws[n] && more[n + 1] == t;
      assert !FallsBack(more, k, n + 1);
      assert PassedAt(Tick(s, t), more, k);
    }
  }

  lemma TruncateIsWhole(t: int)
    ensures Truncate(t) % SECOND == 0
  {
  }

  lemma InvTake(s: State, raws: seq<int>)
    requires Inv(s, raws)
    ensures Inv(Take(s), raws)
  {
    TruncateIsWhole(raws[|raws| - 1]);
    if s.enabled {
      assert PassedAt(Take(s), raws, |raws| - 1);
      if s.lastPassed.Some? {
        var k :| PassedAt(s, raws, k);
      }
    }
  }

  lemma InvStep(s: State, raws: seq<int>)
    requires raws != [] && Inv(s, raws[..|raws| - 1]) && Steady(raws)
    ensures var t := Tick(s, raws[|raws| - 1]); Inv(t, raws) && Inv(Take(t), raws)
  {
    var n := |raws| - 1;
    assert raws[..n] + [raws[n]] == raws;
    InvTick(s, raws[..n], raws[n]);
    InvTake(Tick(s, raws[n]), raws);
  }

  lemma {:induction false} SteadyRun(raws: seq<int>, ready: seq<bool>)
    requires 0 < |raws| == |ready| && Steady(raws)
    ensures Inv(Run(raws, ready), raws)
  {
    var n := |raws| - 1;
    if n == 0 {
      assert Inv(First(raws[0]), raws);
      InvTake(First(raws[0]), raws);
    } else {
      SteadyFront(raws);
      SteadyRun(raws[..n], ready[..n]);
      InvStep(Run(raws[..n], ready[..n]), raws);
    }
  }

  lemma SteadyFront(raws: seq<int>)
    requires Steady(raws) && raws != []
    ensures Steady(raws[..|raws| - 1])
  {
    var front := raws[..|raws| - 1];
    forall k, j ensures !FallsBack(front, k, j) {
      assert !FallsBack(raws, k, j);
    }
  }

  // ---- The other direction -----------------------------------------------------------------------------

  /** A consumer that takes the k-th tick and the j-th, and is not ready at any other time. */
  function TwoTakes(k: int, j: int, n: nat): seq<bool> { seq(n, x => x == k || x == j) }

  lemma TwoTakesFront(k: int, j: int, n: nat)
    requires n > 0
    ensures TwoTakes(k, j, n)[..n - 1] == TwoTakes(k, j, n - 1)
  {
  }

  /** Where that consumer's run stands after n ticks, if the clock fell back between tick j - 1 and tick j. */
  ghost predicate FellBack(s: State, raws: seq<int>, k: int, j: int, n: nat)
    requires 0 <= k < j < |raws| && 0 < n <= |raws|
  {
    && s.tt == Truncate(raws[n - 1])
    && if n <= k then s.enabled && s.lastPassed.None? && s.out == []
       else if n <= j then
         && s.lastPassed == Some(Truncate(raws[k])) && s.out == [Truncate(raws[k])]
         && (n == j ==> s.enabled)
       else s.out == [Truncate(raws[k]), Truncate(raws[j])]
  }

  lemma {:induction false} FallBackRun(raws: seq<int>, k: int, j: int, n: nat)
    requires FallsBack(raws, k, j) && 0 < n <= |raws|
    ensures FellBack(Run(raws[..n], TwoTakes(k, j, n)), raws, k, j, n)
  {
    var ready := TwoTakes(k, j, n);
    if n > 1 {
      FallBackRun(raws, k, j, n - 1);
      TwoTakesFront(k, j, n);
      assert raws[..n][..n - 1] == raws[..n - 1];
    }
  }

  lemma NonDecreasingIsSteady(raws: seq<int>)
    requires forall i :: 0 <= i < |raws| - 1 ==> raws[i] <= raws[i + 1]
    ensures Steady(raws)
  {
    forall k, j ensures !FallsBack(raws, k, j) {
      if 0 <= k < j - 1 && j < |raws| {
        TruncateMonotone(raws[j - 1], raws[j]);
      }
    }
  }

  lemma TruncateMonotone(a: int, b: int)
    requires a <= b
    ensures Truncate(a) <= Truncate(b)
  {
    var p, q := a / SECOND, b / SECOND;
    assert Truncate(a) == p * SECOND && Truncate(b) == q * SECOND && p <= q;
  }

  /** Whole seconds, strictly increasing. */
  ghost predicate InOrder(out: seq<int>) {
    Increasing(out) && forall i :: 0 <= i < |out| ==> out[i] % SECOND == 0
  }

  lemma {:induction false} FallBackBreaks(raws: seq<int>, k: int, j: int) returns (ready: seq<bool>)
    requires FallsBack(raws, k, j)
    ensures |ready| == |raws| && !InOrder(Run(raws, ready).out)
  {
    var n := |raws|;
    ready := TwoTakes(k, j, n);
    FallBackRun(raws, k, j, n);
    assert raws[..n] == raws;
    NotInOrder(Run(raws, ready).out, Truncate(raws[k]), Truncate(raws[j]));
  }

  lemma NotInOrder(out: seq<int>, a: int, b: int)
    requires out == [a, b] && a >= b
    ensures !InOrder(out)
  {
    assert out[0] >= out[1];
  }

  /**
   For every consumer schedule the ticks passed on are whole seconds and strictly increasing, if and only if the
   clock never falls back to or below the second of an earlier tick right after it was past it. A clock that
   never runs backwards is such a clock.
   */
  lemma {:induction false} TicksInOrderIff(raws: seq<int>)
    requires raws != []
    ensures Steady(raws) <==> forall ready: seq<bool> :: |ready| == |raws| ==> InOrder(Run(raws, ready).out)
  {
    if Steady(raws) {
      forall ready: seq<bool> | |ready| == |raws| ensures InOrder(Run(raws, ready).out) {
        SteadyRun(raws, ready);
      }
    } else {
      var k, j :| FallsBack(raws, k, j);
      var ready := FallBackBreaks(raws, k, j);
    }
  }

  /** The seconds of the ticks at which the consumer was ready. */
  function Seconds(raws: seq<int>, ready: seq<bool>): seq<int>
    requires |raws| == |ready|
  {
    if raws == [] then []
    else
      var n := |raws| - 1;
      Seconds(raws[..n], ready[..n]) + if ready[n] then [Truncate(raws[n])] else []
  }

  /** Every tick of the clock is in a later second than the one before. */
  ghost predicate Advances(raws: seq<int>) {
    forall i, j :: 0 <= i < j < |raws| ==> Truncate(raws[i]) < Truncate(raws[j])
  }

  ghost predicate UpToDate(s: State, raws: seq<int>, ready: seq<bool>)
    requires 0 < |raws| == |ready|
  {
    var n := |raws| - 1;
    && s.out == Seconds(raws, ready) && s.tt == Truncate(raws[n]) && s.enabled == !ready[n]
    && (s.lastPassed.Some? ==> s.lastPassed.value < s.tt || (ready[n] && s.lastPassed.value == s.tt))
  }

  /**
   No tick is withheld: on a clock that advances by a second or more each time, the ticks passed on are exactly those at
   which the consumer was ready, so that one which always is gets them all.
   */
  lemma {:induction false} ReadyTicksPass(raws: seq<int>, ready: seq<bool>)
    requires 0 < |raws| == |ready| && Advances(raws)
    ensures UpToDate(Run(raws, ready), raws, ready)
  {
    var n := |raws| - 1;
    if n == 0 {
      assert raws[..0] == [] && ready[..0] == [];
      assert Seconds([], []) == [];
    } else {
      assert raws[..n][n - 1] == raws[n - 1];
      ReadyTicksPass(raws[..n], ready[..n]);
    }
    assert Seconds(raws[..n], ready[..n]) + [] == Seconds(raws[..n], ready[..n]);
  }

  /** A clock that reads 5, 6 and then 5 seconds again: the consumer that misses the second tick gets 5 twice. */
  lemma FallingClock()
    ensures var raws := [5 * SECOND, 6 * SECOND, 5 * SECOND];
            && !Steady(raws)
            && Run(raws, [true, false, true]).out == [5 * SECOND, 5 * SECOND]
  {
    var raws, ready := [5 * SECOND, 6 * SECOND, 5 * SECOND], [true, false, true];
    assert raws[..2] == [5 * SECOND, 6 * SECOND] && ready[..2] == [true, false];
    assert raws[..2][..1] == [5 * SECOND] && ready[..2][..1] == [true];
    assert Run(raws[..2][..1], ready[..2][..1]) == Take(First(5 * SECOND));
    assert Run(raws[..2], ready[..2]) == Tick(Take(First(5 * SECOND)), 6 * SECOND);
    assert FallsBack(raws, 0, 2);
  }
}
