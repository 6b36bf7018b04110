/** What the pool's Kill reaps, and what it does not. */
module PoolKill {
  import opened Bytes
  import opened Directory
  import opened Processes
  import opened Plugins

  ghost predicate NoneAlive(e: Entry) {
    forall i :: 0 <= i < |All(e)| ==> !All(e)[i].alive
  }

  /** No process of an entry that was removed earlier is alive. */
  ghost predicate LeavingDead(leaving: seq<Entry>) {
    forall i :: 0 <= i < |leaving| ==> NoneAlive(leaving[i])
  }

  ghost predicate AllDead(s: PoolState) {
    LeavingDead(s.leaving) && forall p :: p in s.byPath ==> NoneAlive(s.byPath[p])
  }

  // ---- Runs after Kill was called ----------------------------------------------------------------------

  ghost predicate Reaches(s: PoolState, t: PoolState) {
    exists steps :: RunPool(s, steps) == Some(t) && Events(steps) == []
  }

  /** A state that Kill may come to, without any more directory events. */
  ghost predicate Later(s: PoolState, present: set<Path>, t: PoolState) {
    Reaches(s, t) && PoolInv(t, present)
  }

  lemma Start(s: PoolState, present: set<Path>)
    requires PoolInv(s, present)
    ensures Later(s, present, s)
  {
    assert RunPool(s, []) == Some(s) && Events([]) == [];
  }

  lemma Advance(s: PoolState, present: set<Path>, t: PoolState, step: PoolStep)
    requires Later(s, present, t) && CanPool(t, step) && !step.Deliver?
    ensures Later(s, present, DoPool(t, step))
  {
    var steps :| RunPool(s, steps) == Some(t) && Events(steps) == [];
    assert (steps + [step])[..|steps|] == steps;
    assert RunPool(s, steps + [step]) == Some(DoPool(t, step)) && Events(steps + [step]) == [];
    StepKeepsInv(t, present, step);
  }

  /** Only entry p moved. */
  ghost predicate OnlyMoved(t: PoolState, u: PoolState, p: Path) {
    p in t.byPath && u.byPath == t.byPath[p := if p in u.byPath then u.byPath[p] else t.byPath[p]]
    && u.leaving == t.leaving && u.stage == t.stage && u.panicked == t.panicked
  }

  /** The process that an entry waits for can be driven to its exit. */
  lemma ExitArrives(s: PoolState, present: set<Path>, t: PoolState, p: Path) returns (u: PoolState)
    requires Later(s, present, t) && p in t.byPath && (t.byPath[p].pc == ModifyWait || t.byPath[p].pc == RemoveWait)
    ensures Later(s, present, u) && OnlyMoved(t, u, p) && p in u.byPath
    ensures u.byPath[p].pc == t.byPath[p].pc && u.byPath[p].process.exits == 1
    decreases Distance(t.byPath[p].process)
  {
    var e := t.byPath[p];
    assert Inv(e);
    KilledProcessExits(e.process);
    u := t;
    if e.process.exits != 1 {
      var step := if Can(e.process, Die) then Die else if Can(e.process, TakeKill) then TakeKill else Reap;
      assert step in {Die, TakeKill, Reap} && Can(e.process, step);
      Advance(s, present, t, Inside(p, OfProcess(step)));
      u := ExitArrives(s, present, DoPool(t, Inside(p, OfProcess(step))), p);
    }
  }

  /** A wait is over: after a modify the entry is back at its select, after a remove it has returned. */
  lemma WaitEnds(s: PoolState, present: set<Path>, t: PoolState, p: Path) returns (u: PoolState)
    requires Later(s, present, t) && p in t.byPath && (t.byPath[p].pc == ModifyWait || t.byPath[p].pc == RemoveWait)
    ensures Later(s, present, u) && OnlyMoved(t, u, p) && p in u.byPath
    ensures u.byPath[p].pc == if t.byPath[p].pc == ModifyWait then Selecting else Returned
  {
    var v := ExitArrives(s, present, t, p);
    Advance(s, present, v, Inside(p, WaitOver(true)));
    u := DoPool(v, Inside(p, WaitOver(true)));
  }

  /** Kill gets through one entry. */
  lemma KillOne(s: PoolState, present: set<Path>, t: PoolState, p: Path) returns (u: PoolState)
    requires Later(s, present, t) && t.stage.Quitting? && t.stage.waiting == None && p in t.stage.todo
    ensures Later(s, present, u) && u.leaving == t.leaving && u.stage == Quitting(t.stage.todo - {p}, None)
  {
    assert p in t.byPath && Placed(t.stage, p, t.byPath[p]);
    var v := t;
    if t.byPath[p].pc == ModifyWait {
      v := WaitEnds(s, present, t, p);
    }
    Advance(s, present, v, SendKill(p));
    var w := DoPool(v, SendKill(p));
    if w.byPath[p].pc == RemoveWait {
      w := WaitEnds(s, present, w, p);
    }
    Advance(s, present, w, KillReturns);
    u := DoPool(w, KillReturns);
  }

  /** Kill can always finish, and the removed entries need not have moved. */
  lemma KillFinishes(s: PoolState, present: set<Path>, t: PoolState) returns (u: PoolState)
    requires Later(s, present, t) && t.stage.Quitting? && t.stage.waiting == None
    ensures Later(s, present, u) && u.leaving == t.leaving && u.stage == Closed
    decreases t.stage.todo
  {
    if t.stage.todo == {} {
      Advance(s, present, t, Finish);
      u := DoPool(t, Finish);
    } else {
      var p :| p in t.stage.todo;
      var v := KillOne(s, present, t, p);
      u := KillFinishes(s, present, v);
    }
  }

  // ---- What is dead stays dead -------------------------------------------------------------------------

  lemma DeadStays(e: Entry, t: EntryStep)
    requires NoneAlive(e) && (e.pc == RemoveWait || e.pc == Returned) && Internal(t) && CanEntry(e, t)
    ensures NoneAlive(DoEntry(e, t))
  {
    var f := DoEntry(e, t);
    assert !All(e)[|e.past|].alive;
    forall i | 0 <= i < |e.past| ensures !e.past[i].alive {
      assert !All(e)[i].alive;
    }
    forall i | 0 <= i < |All(f)| ensures !All(f)[i].alive {
      assert i < |f.past| ==> All(f)[i] == f.past[i];
    }
  }

  lemma {:induction false} LeavingStaysDead(s: PoolState, present: set<Path>, steps: seq<PoolStep>)
    requires PoolInv(s, present) && s.stage != Looping && LeavingDead(s.leaving) && RunPool(s, steps).Some?
    ensures var t := RunPool(s, steps).value;
            PoolInv(t, present) && t.stage != Looping && LeavingDead(t.leaving)
  {
    if steps != [] {
      var front, last := steps[..|steps| - 1], steps[|steps| - 1];
      LeavingStaysDead(s, present, front);
      var t := RunPool(s, front).value;
      StepKeepsInv(t, present, last);
      if last.Outside? {
        DeadStays(t.leaving[last.i], last.step);
      }
    }
  }

  lemma ClosedEntriesAreDead(t: PoolState, present: set<Path>)
    requires PoolInv(t, present) && t.stage == Closed
    ensures forall p :: p in t.byPath ==> NoneAlive(t.byPath[p])
  {
    forall p | p in t.byPath ensures NoneAlive(t.byPath[p]) {
      assert Placed(t.stage, p, t.byPath[p]);
      InvIsSafe(t.byPath[p]);
    }
  }

  /** Kill always returns with every process dead. */
  ghost predicate KillReapsAll(s: PoolState)
    requires CanPool(s, Quit)
  {
    forall steps :: RunPool(DoPool(s, Quit), steps).Some? && RunPool(DoPool(s, Quit), steps).value.stage == Closed ==>
      AllDead(RunPool(DoPool(s, Quit), steps).value)
  }

  /**
   Kill keeps its promise, that it returns after the last process is reaped, in all its runs if and only if at the
   moment it is called no process of an entry removed earlier is alive.
   */
  lemma {:induction false} KillReapsIff(s: PoolState, present: set<Path>)
    requires PoolInv(s, present) && s.stage == Looping && CanPool(s, Quit)
    ensures KillReapsAll(s) <==> LeavingDead(s.leaving)
  {
    var q := DoPool(s, Quit);
    StageKeepsInv(s, present, Quit);
    if LeavingDead(s.leaving) {
      forall steps | RunPool(q, steps).Some? && RunPool(q, steps).value.stage == Closed
        ensures AllDead(RunPool(q, steps).value)
      {
        LeavingStaysDead(q, present, steps);
        ClosedEntriesAreDead(RunPool(q, steps).value, present);
      }
    } else {
      Start(q, present);
      var u := KillFinishes(q, present, q);
      var steps :| RunPool(q, steps) == Some(u) && Events(steps) == [];
      assert !AllDead(RunPool(q, steps).value);
    }
  }

  // ---- A run in which Kill returns too early -----------------------------------------------------------

  lemma CreateThenRemove(p: Path)
    ensures Replay({}, [Create(p), Remove(p)]).Some?
  {
    assert [Create(p), Remove(p)][..1] == [Create(p)] && [Create(p)][..0] == [];
    assert Replay({}, [Create(p)]) == Some({} + {p});
  }

  lemma CreatedRemovedQuit(p: Path)
    ensures var born := NewEntry(true);
            var s1 := PoolState(map[p := born], [], Looping, false);
            var s2 := PoolState(map[], [DoEntry(born, GetRemove)], Looping, false);
            && CanPool(EMPTY_POOL, Deliver(Create(p), true)) && DoPool(EMPTY_POOL, Deliver(Create(p), true)) == s1
            && CanPool(s1, Deliver(Remove(p), true)) && DoPool(s1, Deliver(Remove(p), true)) == s2
            && CanPool(s2, Quit) && CanPool(DoPool(s2, Quit), Finish)
  {
    var s1 := PoolState(map[p := NewEntry(true)], [], Looping, false);
    assert s1.byPath - {p} == map[];
    var none: map<Path, Entry> := map[];
    assert none.Keys == {};
  }

  /** A plugin is created and removed, then Kill: it returns at once, and the process is still alive. */
  lemma KillMissesRemoved(p: Path) returns (steps: seq<PoolStep>, s: PoolState)
    ensures RunPool(EMPTY_POOL, steps) == Some(s) && s.stage == Closed
    ensures |s.leaving| == 1 && s.leaving[0].process.alive
    ensures Events(steps) == [Create(p), Remove(p)] && Replay({}, Events(steps)).Some?
  {
    CreateThenRemove(p);
    CreatedRemovedQuit(p);
    steps, s := [], EMPTY_POOL;
    steps, s := Extend(steps, s, Deliver(Create(p), true));
    steps, s := Extend(steps, s, Deliver(Remove(p), true));
    steps, s := Extend(steps, s, Quit);
    steps, s := Extend(steps, s, Finish);
  }

  lemma Extend(steps: seq<PoolStep>, s: PoolState, step: PoolStep) returns (more: seq<PoolStep>, t: PoolState)
    requires RunPool(EMPTY_POOL, steps) == Some(s) && CanPool(s, step)
    ensures RunPool(EMPTY_POOL, more) == Some(t) && t == DoPool(s, step)
    ensures Events(more) == Events(steps) + if step.Deliver? then [step.ev] else []
  {
    more, t := steps + [step], DoPool(s, step);
    assert more[..|steps|] == steps;
  }
}
