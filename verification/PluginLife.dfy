/** That plugins run: what restarts them, what stops them, and which of them a pool runs. */
module PluginLife {
  import opened Bytes
  import opened Collections
  import opened Directory
  import opened Processes
  import opened Plugins

  // ---- Restarts of one entry ---------------------------------------------------------------------------

  /** The timer fires; a modified file whose process is gone already; or the exit that a modify waited for. */
  predicate Restarts(e: Entry, step: EntryStep) {
    step.GetTimer? || (step.GetModify? && e.restartDelay) || (step.WaitOver? && e.pc == ModifyWait)
  }

  predicate StartOk(step: EntryStep) {
    match step
    case GetModify(ok) => ok
    case GetTimer(ok) => ok
    case WaitOver(ok) => ok
    case _ => false
  }

  function RestartCount(startOk: bool, steps: seq<EntryStep>): nat
    requires RunEntry(NewEntry(startOk), steps).Some?
  {
    if steps == [] then 0
    else
      var front, last := steps[..|steps| - 1], steps[|steps| - 1];
      RestartCount(startOk, front) + if Restarts(RunEntry(NewEntry(startOk), front).value, last) then 1 else 0
  }

  /** The entry is at its select with a process that was just started: alive, or failed and its exit is there. */
  ghost predicate JustStarted(e: Entry, ok: bool) {
    && e.pc == Selecting && !e.restartDelay && e.process.delivered == 0
    && (if ok then e.process.alive && e.process.exits == 0 else !e.process.alive && e.process.exits == 1)
  }

  lemma RestartStarts(e: Entry, step: EntryStep)
    requires CanEntry(e, step) && Restarts(e, step)
    ensures JustStarted(DoEntry(e, step), StartOk(step)) && |All(DoEntry(e, step))| == |All(e)| + 1
  {
  }

  /**
   Over every run of an entry: each restart leaves it at its select, without a timer, with a process that runs unless it
   could not be started; and there were as many processes as there were restarts, and one more.
   */
  lemma {:induction false} RestartsRun(startOk: bool, steps: seq<EntryStep>)
    requires RunEntry(NewEntry(startOk), steps).Some?
    ensures var e := RunEntry(NewEntry(startOk), steps).value;
            && |All(e)| == 1 + RestartCount(startOk, steps)
            && (steps == [] ==> JustStarted(e, startOk))
            && (steps != [] && Restarts(RunEntry(NewEntry(startOk), steps[..|steps| - 1]).value, steps[|steps| - 1])
                ==> JustStarted(e, StartOk(steps[|steps| - 1])))
  {
    if steps != [] {
      var front, last := steps[..|steps| - 1], steps[|steps| - 1];
      RestartsRun(startOk, front);
      var e := RunEntry(NewEntry(startOk), front).value;
      if Restarts(e, last) {
        RestartStarts(e, last);
      } else {
        assert |All(DoEntry(e, last))| == |All(e)|;
      }
    }
  }

  lemma EntrySnoc(e: Entry, steps: seq<EntryStep>, step: EntryStep)
    requires RunEntry(e, steps).Some? && CanEntry(RunEntry(e, steps).value, step)
    ensures RunEntry(e, steps + [step]) == Some(DoEntry(RunEntry(e, steps).value, step))
  {
    assert (steps + [step])[..|steps|] == steps;
  }

  /**
   A plugin that died comes back: from every reachable state in which its entry is at the select and its process is not
   alive, at most three steps, none of them a directory event, run it again.
   */
  lemma DeadPluginReturns(startOk: bool, steps: seq<EntryStep>) returns (more: seq<EntryStep>)
    requires RunEntry(NewEntry(startOk), steps).Some?
    requires var e := RunEntry(NewEntry(startOk), steps).value; e.pc == Selecting && !e.process.alive
    ensures |more| <= 3 && forall i :: 0 <= i < |more| ==> !more[i].GetModify? && !more[i].GetRemove?
    ensures RunEntry(NewEntry(startOk), steps + more).Some?
    ensures JustStarted(RunEntry(NewEntry(startOk), steps + more).value, true)
  {
    var e := RunEntry(NewEntry(startOk), steps).value;
    InvNewEntry(startOk);
    InvRun(NewEntry(startOk), steps);
    var now := steps;
    more := [];
    assert now + [] == now;
    if e.process.phase != Ended {
      EntrySnoc(NewEntry(startOk), now, OfProcess(Reap));
      now, more := now + [OfProcess(Reap)], more + [OfProcess(Reap)];
    }
    if e.process.delivered == 0 {
      EntrySnoc(NewEntry(startOk), now, GetExit);
      now, more := now + [GetExit], more + [GetExit];
    }
    EntrySnoc(NewEntry(startOk), now, GetTimer(true));
    now, more := now + [GetTimer(true)], more + [GetTimer(true)];
    assert steps + more == now;
  }

  /** Where a run of steps leads from a reachable entry. */
  ghost predicate Leads(startOk: bool, steps: seq<EntryStep>, e: Entry) {
    RunEntry(NewEntry(startOk), steps) == Some(e) && Plugins.Inv(e)
  }

  lemma LeadsOn(startOk: bool, steps: seq<EntryStep>, e: Entry, step: EntryStep)
    requires Leads(startOk, steps, e) && CanEntry(e, step)
    ensures Leads(startOk, steps + [step], DoEntry(e, step))
  {
    EntrySnoc(NewEntry(startOk), steps, step);
    InvStep(e, step);
  }

  /** A modified plugin comes back: the process that it waits for can be driven to its exit, and a new one runs. */
  lemma {:induction false} ModifiedPluginReturns(startOk: bool, steps: seq<EntryStep>, e: Entry)
    returns (more: seq<EntryStep>, f: Entry)
    requires Leads(startOk, steps, e) && e.pc == ModifyWait
    ensures Leads(startOk, steps + more, f) && JustStarted(f, true)
    ensures forall i :: 0 <= i < |more| ==> !more[i].GetModify? && !more[i].GetRemove?
    decreases Distance(e.process)
  {
    KilledProcessExits(e.process);
    if e.process.exits == 1 {
      LeadsOn(startOk, steps, e, WaitOver(true));
      more, f := [WaitOver(true)], DoEntry(e, WaitOver(true));
    } else {
      var s := if Can(e.process, Die) then Die else if Can(e.process, TakeKill) then TakeKill else Reap;
      assert s in {Die, TakeKill, Reap} && Can(e.process, s);
      var step := OfProcess(s);
      LeadsOn(startOk, steps, e, step);
      var rest;
      rest, f := ModifiedPluginReturns(startOk, steps + [step], DoEntry(e, step));
      more := [step] + rest;
      ConcatAssoc(steps, [step], rest);
    }
  }

  // ---- What directory events do to a pool --------------------------------------------------------------

  /** Nothing but the entry of p changed in the table. */
  ghost predicate OnlyEntry(s: PoolState, t: PoolState, p: Path) {
    && s.byPath.Keys - {p} == t.byPath.Keys - {p} && t.stage == s.stage
    && (forall q :: q in s.byPath && q != p ==> q in t.byPath && t.byPath[q] == s.byPath[q])
  }

  /** The entry has asked its process to die, and waits for that. */
  ghost predicate Stops(e: Entry, f: Entry, wait: Pc) {
    f.pc == wait && f.past == e.past && Asked(f.process) && f.process.alive == e.process.alive
  }

  /**
   A created file gets a process, unless there are 128 entries. A modified one has its process stopped, to be started
   again, or started at once if it is dead. A removed one has its process stopped, and leaves the table.
   */
  lemma EventActs(s: PoolState, present: set<Path>, ev: Event, ok: bool)
    requires PoolInv(s, present) && CanPool(s, Deliver(ev, ok)) && Legal(present, ev)
    ensures var t, p := DoPool(s, Deliver(ev, ok)), ev.target;
            && OnlyEntry(s, t, p)
            && match ev
               case Create(_) =>
                 && t.leaving == s.leaving && (p in t.byPath <==> |s.byPath| < MAX_PROC)
                 && (p in t.byPath ==> JustStarted(t.byPath[p], ok) && |All(t.byPath[p])| == 1)
               case Modify(_) =>
                 && t.leaving == s.leaving && (p in t.byPath <==> p in s.byPath)
                 && (p in s.byPath ==> Stops(s.byPath[p], t.byPath[p], ModifyWait)
                                       || (JustStarted(t.byPath[p], ok) && !s.byPath[p].process.alive
                                           && All(t.byPath[p])[..|All(s.byPath[p])|] == All(s.byPath[p])))
               case Remove(_) =>
                 && p !in t.byPath
                 && (if p !in s.byPath then t.leaving == s.leaving
                     else |t.leaving| == |s.leaving| + 1 && t.leaving[..|s.leaving|] == s.leaving
                          && (Stops(s.byPath[p], t.leaving[|s.leaving|], RemoveWait)
                              || (t.leaving[|s.leaving|] == s.byPath[p].(pc := Returned)
                                  && !s.byPath[p].process.alive)))
  {
    if ev.target in s.byPath {
      var e := s.byPath[ev.target];
      assert Plugins.Inv(e) && Placed(s.stage, ev.target, e);
      OkMeans(e.process);
    }
  }

  // ---- Which plugins a pool runs -----------------------------------------------------------------------

  /** There were never more than 128 files in the directory. */
  ghost predicate NeverCrowded(steps: seq<PoolStep>)
    requires Replay({}, Events(steps)).Some?
  {
    |Replay({}, Events(steps)).value| <= MAX_PROC
    && (steps != [] ==> FrontReplays(steps) && NeverCrowded(steps[..|steps| - 1]))
  }

  ghost predicate FrontReplays(steps: seq<PoolStep>)
    requires steps != []
  {
    Replay({}, Events(steps[..|steps| - 1])).Some?
  }

  lemma KeysAfter(s: PoolState, present: set<Path>, ev: Event, ok: bool)
    requires s.byPath.Keys == present && Legal(present, ev) && |After(present, ev)| <= MAX_PROC
    requires CanPool(s, Deliver(ev, ok))
    ensures DoPool(s, Deliver(ev, ok)).byPath.Keys == After(present, ev)
  {
    var p := ev.target;
    if ev.Create? {
      assert |present + {p}| == |present| + 1 && |s.byPath| == |s.byPath.Keys|;
      KeysOfUpdate(s.byPath, p, NewEntry(ok));
    } else if ev.Modify? {
      KeysOfUpdate(s.byPath, p, DoEntry(s.byPath[p], GetModify(ok)));
      assert present + {p} == present;
    } else {
      assert (s.byPath - {p}).Keys == s.byPath.Keys - {p};
    }
  }

  /** As long as there are never more than 128 files, the pool has an entry for every file and for no other path. */
  lemma {:induction false} EntriesArePresent(steps: seq<PoolStep>)
    requires RunPool(EMPTY_POOL, steps).Some? && !RunPool(EMPTY_POOL, steps).value.panicked
    requires Replay({}, Events(steps)).Some? && NeverCrowded(steps)
    ensures RunPool(EMPTY_POOL, steps).value.byPath.Keys == Replay({}, Events(steps)).value
  {
    if steps == [] {
      var none: map<Path, Entry> := map[];
      assert none.Keys == {};
    } else {
      var front, last := steps[..|steps| - 1], steps[|steps| - 1];
      var s := RunPool(EMPTY_POOL, front).value;
      EntriesArePresent(front);
      if last.Deliver? {
        assert Events(steps)[..|Events(steps)| - 1] == Events(front);
        KeysAfter(s, Replay({}, Events(front)).value, last.ev, last.startOk);
      } else {
        assert Events(steps) == Events(front);
        SameKeys(s, last);
      }
    }
  }

  lemma SameKeys(s: PoolState, step: PoolStep)
    requires CanPool(s, step) && !step.Deliver?
    ensures DoPool(s, step).byPath.Keys == s.byPath.Keys
  {
    match step
    case SendKill(p) =>
      KeysOfUpdate(s.byPath, p, DoEntry(s.byPath[p], GetRemove));
      assert s.byPath.Keys + {p} == s.byPath.Keys;
    case Inside(p, t) =>
      KeysOfUpdate(s.byPath, p, DoEntry(s.byPath[p], t));
      assert s.byPath.Keys + {p} == s.byPath.Keys;
    case _ =>
  }
}
