/** Whole runs of Put: from the order check, through the suppressor, into the log of the pool. */
module Delivery {
  import opened Bytes
  import opened Collections
  import opened Points
  import opened Codec
  import opened Commands
  import opened Interpolation
  import opened Repeat
  import opened RepeatRun
  import opened Client
  import opened PoolLaws
  import opened ClientPut
  import Order

  // ---- What the puts of a run submit -------------------------------------------------------------------

  /** Something happens: a point is put, or any goroutine of the pool takes a step of its own. */
  datatype Happening = PutPoint(a: Arrival) | Elsewhere(act: Action)

  /** The points put, in order. */
  function Puts(hs: seq<Happening>): seq<Arrival> {
    if hs == [] then []
    else Puts(hs[..|hs| - 1]) + match hs[|hs| - 1] case PutPoint(a) => [a] case Elsewhere(_) => []
  }

  ghost predicate PutsInRange(ft: FloatText, arrivals: seq<Arrival>) {
    forall i :: 0 <= i < |arrivals| ==> InRange(ft, arrivals[i].d)
  }

  /** Only Put submits commands. */
  ghost predicate OnlyPutsSubmit(hs: seq<Happening>) {
    forall i :: 0 <= i < |hs| ==> hs[i].Elsewhere? ==> !hs[i].act.Submit?
  }

  function PutCommands(ft: FloatText, ds: seq<Datum>): seq<Bytes>
    requires AllInRange(ft, ds)
  {
    if ds == [] then [] else PutCommands(ft, ds[..|ds| - 1]) + [PutCommand(ft, ds[|ds| - 1])]
  }

  function Submits(cmds: seq<Bytes>): seq<Action> {
    if cmds == [] then [] else Submits(cmds[..|cmds| - 1]) + [Submit(cmds[|cmds| - 1])]
  }

  /** The steps of the pool in a run: every point put submits what the suppressor lets through at that moment. */
  function Steps(ft: FloatText, hs: seq<Happening>): seq<Action>
    requires PutsInRange(ft, Puts(hs))
  {
    if hs == [] then []
    else
      var front := hs[..|hs| - 1];
      FrontInRange(ft, hs);
      Steps(ft, front)
      + match hs[|hs| - 1]
        case Elsewhere(act) => [act]
        case PutPoint(a) =>
          RunInRange(ft, Puts(front));
          EmitsInRange(ft, RunOf(Puts(front)).table, a);
          Submits(PutCommands(ft, Queues(true, RunOf(Puts(front)).table, a.d, a.now)))
  }

  lemma FrontInRange(ft: FloatText, hs: seq<Happening>)
    requires hs != [] && PutsInRange(ft, Puts(hs))
    ensures PutsInRange(ft, Puts(hs[..|hs| - 1]))
    ensures hs[|hs| - 1].PutPoint? ==> InRange(ft, hs[|hs| - 1].a.d)
  {
    var front, all := Puts(hs[..|hs| - 1]), Puts(hs);
    assert forall i :: 0 <= i < |front| ==> front[i] == all[i];
    if hs[|hs| - 1].PutPoint? {
      assert all[|front|] == hs[|hs| - 1].a;
    }
  }

  // ---- Points stay printable ---------------------------------------------------------------------------

  ghost predicate TableInRange(ft: FloatText, t: Table) {
    forall s :: s in t.bySeries ==> StatusInRange(ft, t.bySeries[s])
  }

  lemma EmitsInRange(ft: FloatText, t: Table, a: Arrival)
    requires TableInRange(ft, t) && InRange(ft, a.d)
    ensures TableInRange(ft, Tested(t, a.d, a.now)) && AllInRange(ft, Queues(true, t, a.d, a.now))
  {
  }

  lemma {:induction false} RunInRange(ft: FloatText, arrivals: seq<Arrival>)
    requires PutsInRange(ft, arrivals)
    ensures TableInRange(ft, RunOf(arrivals).table) && AllInRange(ft, RunOf(arrivals).sent)
  {
    if arrivals != [] {
      var front, a := arrivals[..|arrivals| - 1], arrivals[|arrivals| - 1];
      RunInRange(ft, front);
      EmitsInRange(ft, RunOf(front).table, a);
    }
  }

  // ---- Submitted, logged -------------------------------------------------------------------------------

  function SubmittedBy(a: Action): seq<Bytes> { if a.Submit? then [a.cmd] else [] }

  function Submitted(actions: seq<Action>): seq<Bytes> {
    if actions == [] then []
    else Submitted(actions[..|actions| - 1]) + SubmittedBy(actions[|actions| - 1])
  }

  lemma SubmittedCons(a: Action, rest: seq<Action>)
    ensures Submitted([a] + rest) == SubmittedBy(a) + Submitted(rest)
  {
    SubmittedConcat([a], rest);
    SubmittedOne(a);
  }

  lemma SubmittedOne(a: Action)
    ensures Submitted([a]) == SubmittedBy(a)
  {
    assert [a][..0] == [] && [] + SubmittedBy(a) == SubmittedBy(a);
  }

  lemma {:induction false} SubmittedConcat(a: seq<Action>, b: seq<Action>)
    ensures Submitted(a + b) == Submitted(a) + Submitted(b)
  {
    if b == [] {
      assert a + b == a && Submitted(a) + [] == Submitted(a);
    } else {
      ConcatFront(a, b);
      SubmittedConcat(a, b[..|b| - 1]);
      ConcatAssoc(Submitted(a), Submitted(b[..|b| - 1]), SubmittedBy(b[|b| - 1]));
    }
  }

  lemma SubmittedMore(actions: seq<Action>, cmds: seq<Bytes>, cmd: Bytes)
    requires Submitted(actions) == cmds
    ensures Submitted(actions + [Submit(cmd)]) == cmds + [cmd]
  {
    SubmittedConcat(actions, [Submit(cmd)]);
    SubmittedOne(Submit(cmd));
  }

  lemma {:induction false} SubmittedSubmits(cmds: seq<Bytes>)
    ensures Submitted(Submits(cmds)) == cmds
  {
    if cmds != [] {
      var front, cmd := cmds[..|cmds| - 1], cmds[|cmds| - 1];
      SubmittedSubmits(front);
      SubmittedMore(Submits(front), front, cmd);
      FrontLast(cmds);
    }
  }

  lemma {:induction false} PutCommandsConcat(ft: FloatText, a: seq<Datum>, b: seq<Datum>)
    requires AllInRange(ft, a) && AllInRange(ft, b)
    ensures AllInRange(ft, a + b) && PutCommands(ft, a + b) == PutCommands(ft, a) + PutCommands(ft, b)
  {
    if b == [] {
      assert a + b == a && PutCommands(ft, a) + [] == PutCommands(ft, a);
    } else {
      ConcatFront(a, b);
      PutCommandsConcat(ft, a, b[..|b| - 1]);
      ConcatAssoc(PutCommands(ft, a), PutCommands(ft, b[..|b| - 1]), [PutCommand(ft, b[|b| - 1])]);
    }
  }

  lemma LogGrows(hash: Bytes -> nat, p: Pool, a: Action)
    requires Wired(p) && Enabled(p, a)
    ensures Next(hash, p, a).log == p.log + SubmittedBy(a)
  {
    assert p.log + [] == p.log;
  }

  /** Whatever the pool does meanwhile, its log is what was submitted, in order. */
  lemma {:induction false} LogIsSubmitted(hash: Bytes -> nat, p: Pool, actions: seq<Action>)
    requires Legal(hash, p, actions)
    ensures After(hash, p, actions).log == p.log + Submitted(actions)
    decreases |actions|
  {
    if actions == [] {
      assert p.log + [] == p.log;
    } else {
      LogGrows(hash, p, actions[0]);
      LogIsSubmitted(hash, Next(hash, p, actions[0]), actions[1..]);
      SubmittedCons(actions[0], actions[1..]);
      HeadTail(actions);
      ConcatAssoc(p.log, SubmittedBy(actions[0]), Submitted(actions[1..]));
    }
  }

  lemma {:induction false} StepsSubmit(ft: FloatText, hs: seq<Happening>)
    requires PutsInRange(ft, Puts(hs)) && OnlyPutsSubmit(hs)
    ensures AllInRange(ft, RunOf(Puts(hs)).sent)
    ensures Submitted(Steps(ft, hs)) == PutCommands(ft, RunOf(Puts(hs)).sent)
  {
    RunInRange(ft, Puts(hs));
    if hs != [] {
      var front, h := hs[..|hs| - 1], hs[|hs| - 1];
      FrontInRange(ft, hs);
      StepsSubmit(ft, front);
      match h
      case Elsewhere(act) =>
        SubmittedConcat(Steps(ft, front), [act]);
        assert Puts(hs) == Puts(front) && [act][..0] == [];
      case PutPoint(a) =>
        PutSubmits(ft, Puts(front), a);
        var more := PutCommands(ft, Queues(true, RunOf(Puts(front)).table, a.d, a.now));
        SubmittedConcat(Steps(ft, front), Submits(more));
        SubmittedSubmits(more);
    }
  }

  lemma PutSubmits(ft: FloatText, front: seq<Arrival>, a: Arrival)
    requires PutsInRange(ft, front) && InRange(ft, a.d)
    ensures var more := Queues(true, RunOf(front).table, a.d, a.now);
            && AllInRange(ft, more) && AllInRange(ft, RunOf(front).sent) && AllInRange(ft, RunOf(front + [a]).sent)
            && PutCommands(ft, RunOf(front + [a]).sent) == PutCommands(ft, RunOf(front).sent) + PutCommands(ft, more)
  {
    RunInRange(ft, front);
    EmitsInRange(ft, RunOf(front).table, a);
    assert (front + [a])[..|front|] == front;
    PutCommandsConcat(ft, RunOf(front).sent, Queues(true, RunOf(front).table, a.d, a.now));
  }

  /**
   Over every run, however the goroutines of the pool interleave with the calls of Put: the commands that entered the
   pool are those of the points that the suppressor lets through, in order, and each of them is in exactly one place.
   */
  lemma EverySentPointHasAPlace(hash: Bytes -> nat, hosts: seq<Address>, maxConns: nat, ft: FloatText,
                                hs: seq<Happening>)
    requires PutsInRange(ft, Puts(hs)) && OnlyPutsSubmit(hs)
    requires Legal(hash, Start(Dials(hosts, maxConns)), Steps(ft, hs))
    ensures var p, sent := After(hash, Start(Dials(hosts, maxConns)), Steps(ft, hs)), RunOf(Puts(hs)).sent;
            && AllInRange(ft, sent) && p.log == PutCommands(ft, sent)
            && forall i: nat :: Everywhere(p)[i] == if i < |sent| then 1 else 0
  {
    var start := Start(Dials(hosts, maxConns));
    StepsSubmit(ft, hs);
    LogIsSubmitted(hash, start, Steps(ft, hs));
    Conservation(hash, hosts, maxConns, Steps(ft, hs));
    CommandsLength(ft, RunOf(Puts(hs)).sent);
  }

  lemma {:induction false} CommandsLength(ft: FloatText, ds: seq<Datum>)
    requires AllInRange(ft, ds)
    ensures |PutCommands(ft, ds)| == |ds|
  {
    if ds != [] {
      CommandsLength(ft, ds[..|ds| - 1]);
    }
  }

  /** What the pool holds after a Put is what these steps make of it. */
  lemma {:induction false} QueuedIsAfter(hash: Bytes -> nat, p: Pool, ft: FloatText, ds: seq<Datum>)
    requires Wired(p) && !p.sender.Panicked? && AllInRange(ft, ds)
    ensures Legal(hash, p, Submits(PutCommands(ft, ds)))
    ensures After(hash, p, Submits(PutCommands(ft, ds))) == Queued(hash, p, ft, ds)
  {
    if ds != [] {
      var front, cmd := ds[..|ds| - 1], PutCommand(ft, ds[|ds| - 1]);
      QueuedIsAfter(hash, p, ft, front);
      PoolLaws.RunSnoc(hash, p, Submits(PutCommands(ft, front)), Submit(cmd));
      assert PutCommands(ft, ds)[..|PutCommands(ft, ds)| - 1] == PutCommands(ft, front);
    }
  }

  // ---- The order check in front ------------------------------------------------------------------------

  /** Times of accepted points, seen as samples. */
  lemma {:induction false} TimesAreSamples(ds: seq<Datum>, s: Bytes)
    ensures |OfSeries(ds, s)| == |Order.TimesOf(ds, s)|
    ensures forall i :: 0 <= i < |OfSeries(ds, s)| ==> OfSeries(ds, s)[i].t == Order.TimesOf(ds, s)[i]
  {
    if ds != [] {
      TimesAreSamples(ds[..|ds| - 1], s);
    }
  }

  ghost predicate FromEpoch(ds: seq<Datum>) {
    forall i :: 0 <= i < |ds| ==> 0 <= ds[i].time <= MAX_INT64
  }

  lemma {:induction false} SamplesFromEpoch(ds: seq<Datum>, s: Bytes)
    requires FromEpoch(ds)
    ensures RepeatSeries.AfterEpoch(OfSeries(ds, s))
  {
    if ds != [] {
      SamplesFromEpoch(ds[..|ds| - 1], s);
    }
  }

  /** No point that is decoded is from before the epoch. */
  ghost predicate DecodedFromEpoch(decoded: seq<Arrival>) {
    forall i :: 0 <= i < |decoded| ==> 0 <= decoded[i].d.time <= MAX_INT64
  }

  lemma {:induction false} AcceptedFromEpoch(decoded: seq<Arrival>)
    requires DecodedFromEpoch(decoded)
    ensures FromEpoch(Order.Accepted(decoded))
  {
    if decoded != [] {
      AcceptedFromEpoch(decoded[..|decoded| - 1]);
    }
  }

  lemma OrderedIsRising(ds: seq<Datum>, s: Bytes)
    requires FromEpoch(ds)
    ensures Ordered(ds, s) <==> Order.Rising(Order.TimesOf(ds, s))
  {
    TimesAreSamples(ds, s);
    SamplesFromEpoch(ds, s);
    var samples, ts := OfSeries(ds, s), Order.TimesOf(ds, s);
    if Ordered(ds, s) {
      assert forall i, j :: 0 <= i < j < |ts| ==> samples[i].t < samples[j].t;
    }
  }

  /**
   The order check leaves a series in the order that the suppressor needs, if and only if it never readmits it with a
   point at or before the last one accepted.
   */
  lemma AcceptedIsOrderedIff(decoded: seq<Arrival>, s: Bytes)
    requires DecodedFromEpoch(decoded)
    ensures Ordered(Order.Accepted(decoded), s) <==> Order.ReadmitsOnly(decoded, s, Order.Later)
  {
    AcceptedFromEpoch(decoded);
    OrderedIsRising(Order.Accepted(decoded), s);
    Order.AcceptedRisesIff(decoded, s);
  }

  /** It does so whenever the points of the series are decoded within fifteen minutes of their time. */
  lemma AcceptedIsOrdered(decoded: seq<Arrival>, s: Bytes)
    requires DecodedFromEpoch(decoded) && Order.ClockRuns(decoded) && Order.Punctual(decoded, s)
    ensures Ordered(Order.Accepted(decoded), s)
  {
    Order.PunctualReadmits(decoded, s);
    AcceptedIsOrderedIff(decoded, s);
  }

  /**
   From the decoder to the queue: when the points that the order check accepts are put, each series whose points are
   decoded within fifteen minutes of their time draws the same function in the queue as it came in, if and only if the
   suppressor never forgets it with a point held back just before its value changes.
   */
  lemma RelayedSeriesIsFaithfulIff(decoded: seq<Arrival>, arrivals: seq<Arrival>, s: Bytes)
    requires DecodedFromEpoch(decoded) && Order.ClockRuns(decoded) && Order.Punctual(decoded, s)
    requires RunOf(arrivals).put == Order.Accepted(decoded)
    ensures var put, sent := OfSeries(Order.Accepted(decoded), s), OfSeries(RunOf(arrivals).sent, s);
            && Increasing(put) && Increasing(sent)
            && (RepeatSeries.Agree(put, sent) <==> RepeatSeries.Clean(EventsOf(arrivals, s)))
  {
    AcceptedIsOrdered(decoded, s);
    RunFaithfulIff(arrivals, s);
  }
}
