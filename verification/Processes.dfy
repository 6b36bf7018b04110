/** A plugin process: the operating system, the reaper and the killers take steps in any order. */
module Processes {
  import opened Bytes

  /** Where handleKill is: before its select, after it killed, or done. A failed start never gets one. */
  datatype Phase = Waiting | Killing | Ended

  /** killChan and Exit are channels of capacity 1; delivered counts what was received from Exit. */
  datatype ProcessState = ProcessState(alive: bool, phase: Phase, killChan: bool, exits: nat, delivered: nat)

  datatype ProcessStep =
    | Die          // the program ends, by itself or because it was killed
    | Reap         // handleKill learns that it ended, and sends on Exit
    | TakeKill     // handleKill takes the request, and kills
    | RequestKill  // Kill, by the pool or by the decoder's timeout
    | Receive      // someone receives from Exit

  function Started(ok: bool): ProcessState {
    if ok then ProcessState(true, Waiting, false, 0, 0) else ProcessState(false, Ended, false, 1, 0)
  }

  predicate Can(p: ProcessState, step: ProcessStep) {
    match step
    case Die => p.alive
    case Reap => p.phase != Ended && !p.alive && p.exits == 0
    case TakeKill => p.phase == Waiting && p.killChan
    case RequestKill => true
    case Receive => p.exits > 0
  }

  function Do(p: ProcessState, step: ProcessStep): ProcessState
    requires Can(p, step)
  {
    match step
    case Die => p.(alive := false)
    case Reap => p.(phase := Ended, exits := p.exits + 1)
    case TakeKill => p.(phase := Killing, killChan := false)
    case RequestKill => p.(killChan := true)
    case Receive => p.(exits := p.exits - 1, delivered := p.delivered + 1)
  }

  /** Exit is sent exactly once, when handleKill is done, and that is after the program ended. */
  ghost predicate Ok(p: ProcessState) {
    if p.phase == Ended then !p.alive && ((p.exits == 1 && p.delivered == 0) || (p.exits == 0 && p.delivered == 1))
    else p.exits == 0 && p.delivered == 0
  }

  function Run(p: ProcessState, steps: seq<ProcessStep>): Option<ProcessState> {
    if steps == [] then Some(p)
    else match Run(p, steps[..|steps| - 1])
      case None => None
      case Some(q) => if Can(q, steps[|steps| - 1]) then Some(Do(q, steps[|steps| - 1])) else None
  }

  lemma {:induction false} RunIsOk(p: ProcessState, steps: seq<ProcessStep>)
    requires Ok(p) && Run(p, steps).Some?
    ensures Ok(Run(p, steps).value)
  {
    if steps != [] {
      RunIsOk(p, steps[..|steps| - 1]);
    }
  }

  function Received(steps: seq<ProcessStep>): nat {
    if steps == [] then 0
    else Received(steps[..|steps| - 1]) + if steps[|steps| - 1] == Receive then 1 else 0
  }

  lemma {:induction false} DeliveredIsReceived(p: ProcessState, steps: seq<ProcessStep>)
    requires Run(p, steps).Some?
    ensures Run(p, steps).value.delivered == p.delivered + Received(steps)
  {
    if steps != [] {
      DeliveredIsReceived(p, steps[..|steps| - 1]);
    }
  }

  /**
   Exactly one exit: whatever the order of deaths, kills and receives, at most one exit is ever received; once
   it is, the program is not alive; and sending it never blocks.
   */
  lemma {:induction false} ExactlyOneExit(start: ProcessState, steps: seq<ProcessStep>, p: ProcessState)
    requires start == Started(true) || start == Started(false)
    requires Run(start, steps) == Some(p)
    ensures OneExit(p, Received(steps))
  {
    var n := Received(steps);
    assert Ok(p) && p.delivered == n by {
      RunIsOk(start, steps);
      DeliveredIsReceived(start, steps);
    }
    OkMeans(p);
  }

  ghost predicate OneExit(p: ProcessState, received: nat) {
    && received <= 1
    && (received == 1 ==> !p.alive && !Can(p, Receive))
    && (p.phase != Ended && !p.alive ==> Can(p, Reap))
    && (p.phase == Ended ==> (Can(p, Receive) <==> received == 0))
  }

  lemma OkMeans(p: ProcessState)
    requires Ok(p)
    ensures OneExit(p, p.delivered)
  {
  }

  /** Steps left until the exit is sent. */
  function Distance(p: ProcessState): nat {
    (if p.alive then 1 else 0) + match p.phase case Waiting => 2 case Killing => 1 case Ended => 0
  }

  /**
   A process asked to die can always proceed until its exit is there, and each of its own steps, in whatever
   order they come, brings that closer.
   */
  lemma KilledProcessExits(p: ProcessState)
    requires Ok(p) && p.delivered == 0 && (p.killChan || p.phase != Waiting)
    ensures p.exits == 1 <==> Distance(p) == 0
    ensures p.exits == 1 || Can(p, Die) || Can(p, TakeKill) || Can(p, Reap)
    ensures forall step :: step in {Die, TakeKill, Reap} && Can(p, step) ==> Distance(Do(p, step)) < Distance(p)
    ensures forall step :: step in {Die, TakeKill, Reap, RequestKill} && Can(p, step) ==>
              var q := Do(p, step); Ok(q) && q.delivered == 0 && (q.killChan || q.phase != Waiting)
  {
  }

  class Process {
    var alive: bool
    var phase: Phase
    var killChan: bool
    var exits: nat
    ghost var delivered: nat

    ghost function State(): ProcessState
      reads this
    {
      ProcessState(alive, phase, killChan, exits, delivered)
    }

    /** startProcess: pipes and exec may fail, and then the exit is there at once. */
    constructor (pipesOk: bool, execOk: bool)
      ensures State() == Started(pipesOk && execOk)
    {
      killChan, delivered := false, 0;
      if !pipesOk || !execOk {
        alive, phase, exits := false, Ended, 1;
      } else {
        alive, phase, exits := true, Waiting, 0;
      }
    }

    /** A send that does nothing if the channel is full. */
    method Kill()
      modifies this`killChan
      ensures State() == Do(old(State()), RequestKill)
    {
      if !killChan {
        killChan := true;
      }
    }

    /** The select of handleKill, when the wait is over first. */
    method DiedOnItsOwn()
      requires Can(State(), Reap) && phase == Waiting
      modifies this
      ensures State() == Do(old(State()), Reap)
    {
      exits := exits + 1;
      phase := Ended;
    }

    /** The select of handleKill, when the request is first: the signal is sent, then it waits for the reap. */
    method TakeKillRequest()
      requires Can(State(), TakeKill)
      modifies this
      ensures State() == Do(old(State()), TakeKill)
    {
      killChan := false;
      phase := Killing;
    }

    method ReapKilled()
      requires Can(State(), Reap) && phase == Killing
      modifies this
      ensures State() == Do(old(State()), Reap)
    {
      exits := exits + 1;
      phase := Ended;
    }

    method ReceiveExit()
      requires Can(State(), Receive)
      modifies this
      ensures State() == Do(old(State()), Receive)
    {
      exits := exits - 1;
      delivered := delivered + 1;
    }
  }
}
