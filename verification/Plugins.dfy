/** The plugin pool: one state machine per directory entry, driven by directory events. */
module Plugins {
  import opened Bytes
  import opened Directory
  import opened Processes

  const MAX_PROC: nat := 128

  // ---- One entry ---------------------------------------------------------------------------------------

  /** Where mainloop is: at its select, waiting for an exit inside a case, or returned. */
  datatype Pc = Selecting | ModifyWait | RemoveWait | Returned

  /** restartDelay says whether the timer channel is non-nil; past are the processes replaced so far. */
  datatype Entry = Entry(pc: Pc, restartDelay: bool, past: seq<ProcessState>, process: ProcessState)

  datatype EntryStep =
    | GetModify(startOk: bool)
    | GetRemove
    | GetExit
    | GetTimer(startOk: bool)
    | WaitOver(startOk: bool)
    | OfProcess(step: ProcessStep)
    | OfPast(i: nat, step: ProcessStep)

  function NewEntry(startOk: bool): Entry { Entry(Selecting, false, [], Started(startOk)) }

  predicate CanEntry(e: Entry, step: EntryStep) {
    match step
    case GetModify(_) => e.pc == Selecting
    case GetRemove => e.pc == Selecting
    case GetExit => e.pc == Selecting && Can(e.process, Receive)
    case GetTimer(_) => e.pc == Selecting && e.restartDelay
    case WaitOver(_) => (e.pc == ModifyWait || e.pc == RemoveWait) && Can(e.process, Receive)
    case OfProcess(s) => s != Receive && Can(e.process, s)
    case OfPast(i, s) => i < |e.past| && s != Receive && Can(e.past[i], s)
  }

  function Restarted(e: Entry, startOk: bool): Entry {
    Entry(Selecting, false, e.past + [e.process], Started(startOk))
  }

  function DoEntry(e: Entry, step: EntryStep): Entry
    requires CanEntry(e, step)
  {
    match step
    case GetModify(ok) =>
      if e.restartDelay then Restarted(e, ok)
      else e.(pc := ModifyWait, process := Do(e.process, RequestKill))
    case GetRemove =>
      if e.restartDelay then e.(pc := Returned)
      else e.(pc := RemoveWait, process := Do(e.process, RequestKill))
    case GetExit => e.(restartDelay := true, process := Do(e.process, Receive))
    case GetTimer(ok) => Restarted(e, ok)
    case WaitOver(ok) =>
      var e' := e.(process := Do(e.process, Receive));
      if e.pc == ModifyWait then Restarted(e', ok) else e'.(pc := Returned)
    case OfProcess(s) => e.(process := Do(e.process, s))
    case OfPast(i, s) => e.(past := e.past[i := Do(e.past[i], s)])
  }

  ghost predicate PastOk(past: seq<ProcessState>) {
    forall i :: 0 <= i < |past| ==> Ok(past[i]) && past[i].delivered == 1
  }

  /**
   The lifecycle: the timer is set exactly when the exit of the current process was received; whoever waits for
   an exit has asked for it and has not had it; all earlier processes have exited.
   */
  ghost predicate Inv(e: Entry) {
    && Ok(e.process) && PastOk(e.past)
    && (e.pc == Selecting ==> (e.restartDelay <==> e.process.delivered == 1))
    && (e.pc == Returned ==> e.process.delivered == 1)
    && (e.pc == ModifyWait || e.pc == RemoveWait ==> !e.restartDelay && Asked(e.process))
  }

  /** A process that was asked to die, and whose exit was not received yet. */
  predicate Asked(p: ProcessState) {
    p.delivered == 0 && (p.killChan || p.phase != Waiting)
  }

  lemma InvNewEntry(startOk: bool)
    ensures Inv(NewEntry(startOk))
  {
  }

  lemma InvStep(e: Entry, step: EntryStep)
    requires Inv(e) && CanEntry(e, step)
    ensures Inv(DoEntry(e, step))
  {
    match step
    case OfPast(i, s) => OkDo(e.past[i], s);
    case OfProcess(s) => InvOfProcess(e, s);
    case GetModify(ok) => InvModify(e, ok);
    case GetTimer(ok) => PastMore(e.past, e.process, ok);
    case WaitOver(ok) => InvWaitOver(e, ok);
    case GetExit => OkDo(e.process, Receive);
    case GetRemove => InvRemove(e);
  }

  lemma InvOfProcess(e: Entry, s: ProcessStep)
    requires Inv(e) && Can(e.process, s) && s != Receive
    ensures Inv(e.(process := Do(e.process, s)))
  {
    OkDo(e.process, s);
  }

  lemma InvModify(e: Entry, ok: bool)
    requires Inv(e) && e.pc == Selecting
    ensures Inv(DoEntry(e, GetModify(ok)))
  {
    if e.restartDelay {
      PastMore(e.past, e.process, ok);
    } else {
      OkDo(e.process, RequestKill);
    }
  }

  lemma InvRemove(e: Entry)
    requires Inv(e) && e.pc == Selecting
    ensures Inv(DoEntry(e, GetRemove))
  {
    OkDo(e.process, RequestKill);
  }

  lemma InvWaitOver(e: Entry, ok: bool)
    requires Inv(e) && CanEntry(e, WaitOver(ok))
    ensures Inv(DoEntry(e, WaitOver(ok)))
  {
    OkDo(e.process, Receive);
    if e.pc == ModifyWait {
      PastMore(e.past, Do(e.process, Receive), ok);
    }
  }

  /** A step of a process keeps it in order; only a receive counts, and a request to die is not forgotten. */
  lemma OkDo(p: ProcessState, step: ProcessStep)
    requires Ok(p) && Can(p, step)
    ensures Ok(Do(p, step))
    ensures Do(p, step).delivered == p.delivered + if step == Receive then 1 else 0
    ensures step != Receive && Asked(p) ==> Asked(Do(p, step))
    ensures step == RequestKill && p.delivered == 0 ==> Asked(Do(p, step))
    ensures step == Receive ==> p.delivered == 0
  {
  }

  lemma PastMore(past: seq<ProcessState>, p: ProcessState, startOk: bool)
    requires PastOk(past) && Ok(p) && p.delivered == 1
    ensures Inv(Entry(Selecting, false, past + [p], Started(startOk)))
  {
  }

  function RunEntry(e: Entry, steps: seq<EntryStep>): Option<Entry> {
    if steps == [] then Some(e)
    else match RunEntry(e, steps[..|steps| - 1])
      case None => None
      case Some(f) => if CanEntry(f, steps[|steps| - 1]) then Some(DoEntry(f, steps[|steps| - 1])) else None
  }

  lemma {:induction false} InvRun(e: Entry, steps: seq<EntryStep>)
    requires Inv(e) && RunEntry(e, steps).Some?
    ensures Inv(RunEntry(e, steps).value)
  {
    if steps != [] {
      InvRun(e, steps[..|steps| - 1]);
      InvStep(RunEntry(e, steps[..|steps| - 1]).value, steps[|steps| - 1]);
    }
  }

  function All(e: Entry): seq<ProcessState> { e.past + [e.process] }

  /**
   In every reachable state of an entry at most one process is alive, none once mainloop has returned, and the
   timer is set exactly when the current process has no exit left to deliver.
   */
  lemma EntryIsSafe(startOk: bool, steps: seq<EntryStep>)
    requires RunEntry(NewEntry(startOk), steps).Some?
    ensures var e := RunEntry(NewEntry(startOk), steps).value;
            && (forall i, j :: 0 <= i < j < |All(e)| ==> !(All(e)[i].alive && All(e)[j].alive))
            && (e.pc == Returned ==> forall i :: 0 <= i < |All(e)| ==> !All(e)[i].alive)
            && (e.pc == Selecting ==> (e.restartDelay <==> e.process.delivered == 1))
  {
    InvNewEntry(startOk);
    InvRun(NewEntry(startOk), steps);
    InvIsSafe(RunEntry(NewEntry(startOk), steps).value);
  }

  lemma InvIsSafe(e: Entry)
    requires Inv(e)
    ensures forall i, j :: 0 <= i < j < |All(e)| ==> !(All(e)[i].alive && All(e)[j].alive)
    ensures e.pc == Returned ==> forall i :: 0 <= i < |All(e)| ==> !All(e)[i].alive
    ensures e.pc == Selecting ==> (e.restartDelay <==> e.process.delivered == 1)
  {
    forall i | 0 <= i < |e.past| ensures All(e)[i] == e.past[i] && !e.past[i].alive {
      OkMeans(e.past[i]);
    }
    OkMeans(e.process);
  }

  /**
   Every wait on Exit inside a case can be satisfied: in every reachable state that waits, the exit is there
   or the process can step towards it.
   */
  lemma WaitsEnd(startOk: bool, steps: seq<EntryStep>)
    requires RunEntry(NewEntry(startOk), steps).Some?
    requires RunEntry(NewEntry(startOk), steps).value.pc in {ModifyWait, RemoveWait}
    ensures var e := RunEntry(NewEntry(startOk), steps).value;
            || CanEntry(e, WaitOver(true))
            || exists s :: s in {Die, TakeKill, Reap} && CanEntry(e, OfProcess(s))
                           && Distance(Do(e.process, s)) < Distance(e.process)
  {
    InvNewEntry(startOk);
    InvRun(NewEntry(startOk), steps);
    var e := RunEntry(NewEntry(startOk), steps).value;
    KilledProcessExits(e.process);
    if !CanEntry(e, WaitOver(true)) {
      var s := if Can(e.process, Die) then Die else if Can(e.process, TakeKill) then TakeKill else Reap;
      assert s in {Die, TakeKill, Reap} && CanEntry(e, OfProcess(s));
    }
  }

  /** The mainloop of an entry: each method is one case of its select, or the wait inside a case. */
  class DirectoryEntry {
    var pc: Pc
    var restartDelay: bool
    var process: Process
    ghost var past: seq<ProcessState>

    ghost function State(): Entry
      reads this, process
    {
      Entry(pc, restartDelay, past, process.State())
    }

    constructor (startOk: bool)
      ensures State() == NewEntry(startOk) && fresh(process)
    {
      pc, restartDelay, past := Selecting, false, [];
      process := new Process(true, startOk);
    }

    method Restart(startOk: bool)
      modifies this
      ensures State() == Restarted(old(State()), startOk) && fresh(process)
    {
      past := past + [process.State()];
      restartDelay := false;
      process := new Process(true, startOk);
      pc := Selecting;
    }

    method OnModify(startOk: bool)
      requires pc == Selecting
      modifies this, process
      ensures State() == DoEntry(old(State()), GetModify(startOk))
    {
      if !restartDelay {
        process.Kill();
        pc := ModifyWait;
        return;
      }
      Restart(startOk);
    }

    method OnRemove()
      requires pc == Selecting
      modifies this, process
      ensures State() == DoEntry(old(State()), GetRemove)
    {
      if !restartDelay {
        process.Kill();
        pc := RemoveWait;
        return;
      }
      pc := Returned;
    }

    method OnWaitOver(startOk: bool)
      requires CanEntry(State(), WaitOver(startOk))
      modifies this, process
      ensures State() == DoEntry(old(State()), WaitOver(startOk))
    {
      process.ReceiveExit();
      if pc == RemoveWait {
        pc := Returned;
        return;
      }
      Restart(startOk);
    }

    method OnExit()
      requires CanEntry(State(), GetExit)
      modifies this, process
      ensures State() == DoEntry(old(State()), GetExit)
    {
      process.ReceiveExit();
      restartDelay := true;
    }

    method OnTimer(startOk: bool)
      requires CanEntry(State(), GetTimer(startOk))
      modifies this
      ensures State() == DoEntry(old(State()), GetTimer(startOk))
    {
      Restart(startOk);
    }
  }

  // ---- The pool ----------------------------------------------------------------------------------------

  /** Kill goes through the entries in any order, and waits for each of them. */
  datatype Stage = Looping | Quitting(todo: set<Path>, waiting: Option<Path>) | Closed

  /** leaving are the entries removed from byPath, which may still be waiting for their process to exit. */
  datatype PoolState = PoolState(byPath: map<Path, Entry>, leaving: seq<Entry>, stage: Stage, panicked: bool)

  datatype PoolStep =
    | Deliver(ev: Event, startOk: bool)
    | Quit
    | SendKill(path: Path)
    | KillReturns
    | Finish
    | Inside(path: Path, step: EntryStep)
    | Outside(i: nat, step: EntryStep)

  predicate Internal(step: EntryStep) { !step.GetModify? && !step.GetRemove? }

  predicate CanPool(s: PoolState, step: PoolStep) {
    !s.panicked &&
    match step
    case Deliver(ev, _) => s.stage == Looping && (ev.target in s.byPath ==> s.byPath[ev.target].pc == Selecting)
    case Quit => s.stage == Looping
    case SendKill(path) =>
      && s.stage.Quitting? && s.stage.waiting == None
      && path in s.stage.todo && path in s.byPath && s.byPath[path].pc == Selecting
    case KillReturns =>
      && s.stage.Quitting? && s.stage.waiting.Some?
      && s.stage.waiting.value in s.byPath && s.byPath[s.stage.waiting.value].pc == Returned
    case Finish => s.stage.Quitting? && s.stage.todo == {} && s.stage.waiting == None
    case Inside(path, t) => path in s.byPath && Internal(t) && CanEntry(s.byPath[path], t)
    case Outside(i, t) => i < |s.leaving| && Internal(t) && CanEntry(s.leaving[i], t)
  }

  /** The loop's reaction to one directory event. A create event for an entry that exists panics its mainloop. */
  function Delivered(s: PoolState, ev: Event, startOk: bool): PoolState
    requires ev.target in s.byPath ==> s.byPath[ev.target].pc == Selecting
  {
    var p := ev.target;
    if p !in s.byPath then
      if ev.Create? && |s.byPath| != MAX_PROC then s.(byPath := s.byPath[p := NewEntry(startOk)])
      else s
    else
      match ev
      case Create(_) => s.(panicked := true)
      case Modify(_) => s.(byPath := s.byPath[p := DoEntry(s.byPath[p], GetModify(startOk))])
      case Remove(_) => s.(byPath := s.byPath - {p}, leaving := s.leaving + [DoEntry(s.byPath[p], GetRemove)])
  }

  function DoPool(s: PoolState, step: PoolStep): PoolState
    requires CanPool(s, step)
  {
    match step
    case Deliver(ev, ok) => Delivered(s, ev, ok)
    case Quit => s.(stage := Quitting(s.byPath.Keys, None))
    case SendKill(p) =>
      s.(byPath := s.byPath[p := DoEntry(s.byPath[p], GetRemove)], stage := Quitting(s.stage.todo - {p}, Some(p)))
    case KillReturns => s.(stage := Quitting(s.stage.todo, None))
    case Finish => s.(stage := Closed)
    case Inside(p, t) => s.(byPath := s.byPath[p := DoEntry(s.byPath[p], t)])
    case Outside(i, t) => s.(leaving := s.leaving[i := DoEntry(s.leaving[i], t)])
  }

  /** Where an entry of byPath may be: it leaves its loop only once the pool's Kill has asked it to. */
  ghost predicate Placed(stage: Stage, p: Path, e: Entry) {
    match stage
    case Looping => e.pc == Selecting || e.pc == ModifyWait
    case Quitting(todo, waiting) =>
      if p in todo then e.pc == Selecting || e.pc == ModifyWait
      else if waiting == Some(p) then e.pc == RemoveWait || e.pc == Returned
      else e.pc == Returned
    case Closed => e.pc == Returned
  }

  ghost predicate EntriesOk(byPath: map<Path, Entry>, stage: Stage) {
    forall p :: p in byPath ==> Inv(byPath[p]) && Placed(stage, p, byPath[p])
  }

  ghost predicate LeavingOk(leaving: seq<Entry>) {
    forall i :: 0 <= i < |leaving| ==> Inv(leaving[i]) && (leaving[i].pc == RemoveWait || leaving[i].pc == Returned)
  }

  /** present are the paths of the directory, as told by the events delivered so far. */
  ghost predicate PoolInv(s: PoolState, present: set<Path>) {
    && !s.panicked && s.byPath.Keys <= present && |s.byPath| <= MAX_PROC
    && EntriesOk(s.byPath, s.stage) && LeavingOk(s.leaving)
    && (s.stage.Quitting? ==> s.stage.todo <= s.byPath.Keys)
  }

  const EMPTY_POOL: PoolState := PoolState(map[], [], Looping, false)

  lemma PlaceEntry(byPath: map<Path, Entry>, stage: Stage, p: Path, e: Entry)
    requires EntriesOk(byPath, stage) && Inv(e) && Placed(stage, p, e)
    ensures EntriesOk(byPath[p := e], stage)
    ensures byPath[p := e].Keys == byPath.Keys + {p}
    ensures |byPath[p := e]| == |byPath| + if p in byPath then 0 else 1
  {
    KeysOfUpdate(byPath, p, e);
    var now := byPath[p := e];
    forall q | q in now ensures Inv(now[q]) && Placed(stage, q, now[q]) {
      if q != p {
        assert now[q] == byPath[q] && q in byPath;
      }
    }
  }

  lemma KeysOfUpdate<T>(m: map<Path, T>, p: Path, e: T)
    ensures m[p := e].Keys == m.Keys + {p} && |m[p := e]| == |m| + if p in m then 0 else 1
  {
    assert m[p := e].Keys == m.Keys + {p};
    if p in m {
      assert m.Keys + {p} == m.Keys;
    }
    assert |m[p := e]| == |m[p := e].Keys| && |m| == |m.Keys|;
  }

  lemma PlaceLeaving(leaving: seq<Entry>, e: Entry, i: nat)
    requires LeavingOk(leaving) && Inv(e) && (e.pc == RemoveWait || e.pc == Returned) && i <= |leaving|
    ensures if i < |leaving| then LeavingOk(leaving[i := e]) else LeavingOk(leaving + [e])
  {
  }

  lemma DropEntry(byPath: map<Path, Entry>, stage: Stage, p: Path)
    requires EntriesOk(byPath, stage) && p in byPath
    ensures EntriesOk(byPath - {p}, stage)
    ensures (byPath - {p}).Keys == byPath.Keys - {p} && |byPath - {p}| < |byPath|
  {
    assert (byPath - {p}).Keys == byPath.Keys - {p};
  }

  lemma InternalStaysPlaced(stage: Stage, p: Path, e: Entry, t: EntryStep)
    requires Inv(e) && Placed(stage, p, e) && Internal(t) && CanEntry(e, t)
    ensures Inv(DoEntry(e, t)) && Placed(stage, p, DoEntry(e, t))
  {
    InvStep(e, t);
  }

  lemma DeliverKeepsInv(s: PoolState, present: set<Path>, ev: Event, startOk: bool)
    requires PoolInv(s, present) && CanPool(s, Deliver(ev, startOk)) && Legal(present, ev)
    ensures PoolInv(Delivered(s, ev, startOk), After(present, ev))
  {
    if ev.target !in s.byPath {
      ToAbsent(s, present, ev, startOk);
    } else if ev.Modify? {
      ToModified(s, present, ev.target, startOk);
    } else {
      ToRemoved(s, present, ev.target);
    }
  }

  lemma ToAbsent(s: PoolState, present: set<Path>, ev: Event, startOk: bool)
    requires PoolInv(s, present) && s.stage == Looping && Legal(present, ev) && ev.target !in s.byPath
    ensures PoolInv(Delivered(s, ev, startOk), After(present, ev))
  {
    if ev.Create? && |s.byPath| != MAX_PROC {
      Added(s, present, ev.target, startOk);
    } else {
      assert Delivered(s, ev, startOk) == s;
      assert s.byPath.Keys <= After(present, ev);
    }
  }

  lemma Added(s: PoolState, present: set<Path>, p: Path, startOk: bool)
    requires PoolInv(s, present) && s.stage == Looping && p !in s.byPath && |s.byPath| != MAX_PROC
    ensures PoolInv(s.(byPath := s.byPath[p := NewEntry(startOk)]), present + {p})
  {
    InvNewEntry(startOk);
    PlaceEntry(s.byPath, s.stage, p, NewEntry(startOk));
  }

  lemma ToModified(s: PoolState, present: set<Path>, p: Path, startOk: bool)
    requires PoolInv(s, present) && s.stage == Looping && p in s.byPath && s.byPath[p].pc == Selecting
    ensures PoolInv(Delivered(s, Modify(p), startOk), present)
  {
    var e := DoEntry(s.byPath[p], GetModify(startOk));
    InvStep(s.byPath[p], GetModify(startOk));
    PlaceEntry(s.byPath, s.stage, p, e);
    assert Delivered(s, Modify(p), startOk) == s.(byPath := s.byPath[p := e]);
  }

  lemma ToRemoved(s: PoolState, present: set<Path>, p: Path)
    requires PoolInv(s, present) && s.stage == Looping && p in s.byPath && s.byPath[p].pc == Selecting
    ensures PoolInv(Delivered(s, Remove(p), false), present - {p})
    ensures forall ok :: Delivered(s, Remove(p), ok) == Delivered(s, Remove(p), false)
  {
    var e := DoEntry(s.byPath[p], GetRemove);
    InvStep(s.byPath[p], GetRemove);
    PlaceLeaving(s.leaving, e, |s.leaving|);
    DropEntry(s.byPath, s.stage, p);
  }

  lemma SendKillKeepsInv(s: PoolState, present: set<Path>, p: Path)
    requires PoolInv(s, present) && CanPool(s, SendKill(p))
    ensures PoolInv(DoPool(s, SendKill(p)), present)
  {
    var s' := DoPool(s, SendKill(p));
    InvStep(s.byPath[p], GetRemove);
    assert s'.byPath.Keys == s.byPath.Keys;
    forall q | q in s'.byPath ensures Inv(s'.byPath[q]) && Placed(s'.stage, q, s'.byPath[q]) {
      assert Placed(s.stage, q, s.byPath[q]);
    }
  }

  lemma StageKeepsInv(s: PoolState, present: set<Path>, step: PoolStep)
    requires PoolInv(s, present) && CanPool(s, step) && (step.Quit? || step.KillReturns? || step.Finish?)
    ensures PoolInv(DoPool(s, step), present)
  {
    var s' := DoPool(s, step);
    forall q | q in s'.byPath ensures Inv(s'.byPath[q]) && Placed(s'.stage, q, s'.byPath[q]) {
      assert Placed(s.stage, q, s.byPath[q]);
    }
  }

  lemma StepKeepsInv(s: PoolState, present: set<Path>, step: PoolStep)
    requires PoolInv(s, present) && CanPool(s, step) && !step.Deliver?
    ensures PoolInv(DoPool(s, step), present)
  {
    match step
    case SendKill(p) => SendKillKeepsInv(s, present, p);
    case Inside(p, t) =>
      InternalStaysPlaced(s.stage, p, s.byPath[p], t);
      PlaceEntry(s.byPath, s.stage, p, DoEntry(s.byPath[p], t));
    case Outside(i, t) =>
      InvStep(s.leaving[i], t);
      PlaceLeaving(s.leaving, DoEntry(s.leaving[i], t), i);
    case _ => StageKeepsInv(s, present, step);
  }

  function RunPool(s: PoolState, steps: seq<PoolStep>): Option<PoolState> {
    if steps == [] then Some(s)
    else match RunPool(s, steps[..|steps| - 1])
      case None => None
      case Some(t) => if CanPool(t, steps[|steps| - 1]) then Some(DoPool(t, steps[|steps| - 1])) else None
  }

  /** The directory events delivered in a run. */
  function Events(steps: seq<PoolStep>): seq<Event> {
    if steps == [] then []
    else
      var last := steps[|steps| - 1];
      Events(steps[..|steps| - 1]) + if last.Deliver? then [last.ev] else []
  }

  lemma {:induction false} RunKeepsInv(s: PoolState, present: set<Path>, steps: seq<PoolStep>)
    requires PoolInv(s, present) && RunPool(s, steps).Some? && Replay(present, Events(steps)).Some?
    ensures PoolInv(RunPool(s, steps).value, Replay(present, Events(steps)).value)
  {
    if steps != [] {
      var front, last := steps[..|steps| - 1], steps[|steps| - 1];
      var t := RunPool(s, front).value;
      if last.Deliver? {
        assert Events(steps)[..|Events(steps)| - 1] == Events(front);
        RunKeepsInv(s, present, front);
        DeliverKeepsInv(t, Replay(present, Events(front)).value, last.ev, last.startOk);
      } else {
        assert Events(steps) == Events(front);
        RunKeepsInv(s, present, front);
        StepKeepsInv(t, Replay(present, Events(front)).value, last);
      }
    }
  }

  lemma {:induction false} ReplayPrefix(paths: set<Path>, a: seq<Event>, b: seq<Event>)
    requires a <= b && Replay(paths, b).Some?
    ensures Replay(paths, a).Some?
    decreases |b|
  {
    if a != b {
      ReplayPrefix(paths, a, b[..|b| - 1]);
    }
  }

  lemma WatchedPoolKeepsInv(snaps: seq<map<Path, FileInfo>>, batches: seq<seq<Event>>, steps: seq<PoolStep>)
    requires RunOfDiffs(map[], snaps, batches) && Events(steps) <= Flatten(batches)
    requires RunPool(EMPTY_POOL, steps).Some?
    ensures Replay({}, Events(steps)).Some?
    ensures PoolInv(RunPool(EMPTY_POOL, steps).value, Replay({}, Events(steps)).value)
  {
    RunReplays(map[], snaps, batches);
    var empty: map<Path, FileInfo> := map[];
    assert empty.Keys == {};
    ReplayPrefix({}, Events(steps), Flatten(batches));
    RunKeepsInv(EMPTY_POOL, {}, steps);
  }

  /**
   A pool that watches a directory: whatever the snapshots, the order of events within each diff, and the order
   of exits, kills, failed starts, timers and the pool's own Kill, mainloop never sees an unexpected event, the
   pool never has more than 128 entries, and every entry is in a legal state of its lifecycle.
   */
  lemma WatchedPoolIsSafe(snaps: seq<map<Path, FileInfo>>, batches: seq<seq<Event>>, steps: seq<PoolStep>)
    requires RunOfDiffs(map[], snaps, batches) && Events(steps) <= Flatten(batches)
    requires RunPool(EMPTY_POOL, steps).Some?
    ensures var s := RunPool(EMPTY_POOL, steps).value;
            && !s.panicked && |s.byPath| <= MAX_PROC
            && Replay({}, Events(steps)).Some? && s.byPath.Keys <= Replay({}, Events(steps)).value
            && EntriesOk(s.byPath, s.stage) && LeavingOk(s.leaving)
  {
    WatchedPoolKeepsInv(snaps, batches, steps);
  }

  // ---- The pool object ---------------------------------------------------------------------------------

  class PluginPool {
    var byPath: map<Path, Entry>
    ghost var leaving: seq<Entry>

    ghost function State(): PoolState
      reads this
    {
      PoolState(byPath, leaving, Looping, false)
    }

    /** One event of the directory; an entry takes its event when it is back at its select. */
    method Handle(ev: Event, startOk: bool, ghost present: set<Path>)
      requires PoolInv(State(), present) && Legal(present, ev)
      requires ev.target in byPath ==> byPath[ev.target].pc == Selecting
      modifies this
      ensures State() == Delivered(old(State()), ev, startOk)
      ensures PoolInv(State(), After(present, ev))
    {
      DeliverKeepsInv(State(), present, ev, startOk);
      if ev.target !in byPath {
        if ev.Create? {
          Add(ev.target, startOk);
        }
        return;
      }
      var entry := byPath[ev.target];
      match ev
      case Create(_) => assert false;
      case Modify(_) => byPath := byPath[ev.target := DoEntry(entry, GetModify(startOk))];
      case Remove(_) =>
        leaving := leaving + [DoEntry(entry, GetRemove)];
        byPath := byPath - {ev.target};
    }

    method Add(path: Path, startOk: bool)
      modifies this`byPath
      ensures byPath == if |old(byPath)| != MAX_PROC then old(byPath)[path := NewEntry(startOk)] else old(byPath)
    {
      if |byPath| == MAX_PROC {
        return;
      }
      byPath := byPath[path := NewEntry(startOk)];
    }
  }
}
