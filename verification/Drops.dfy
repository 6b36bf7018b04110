/** What the relay makes of the points that its client drops: a count, and a log of the lost points. */
module Drops {
  import opened Bytes
  import opened Collections
  import opened Points
  import opened Codec
  import opened RoundTrip
  import opened Commands
  import opened Client
  import opened PoolLaws

  // ---- The hooks ---------------------------------------------------------------------------------------

  function CountLines(buf: Bytes): nat {
    if buf == [] then 0 else (if buf[0] == NEWLINE then 1 else 0) + CountLines(buf[1..])
  }

  /** The lines of a buffer, or None if it runs out of line ends before it ends. */
  function LostLines(buf: Bytes): Option<seq<Bytes>>
    decreases |buf|
  {
    if buf == [] then Some([])
    else
      var i := IndexByte(buf, NEWLINE);
      if i == -1 then None else InFront(buf[..i], LostLines(buf[i + 1..]))
  }

  function InFront(line: Bytes, lines: Option<seq<Bytes>>): Option<seq<Bytes>> {
    match lines case None => None case Some(ls) => Some([line] + ls)
  }

  predicate EndsLine(buf: Bytes) { buf == [] || buf[|buf| - 1] == NEWLINE }

  lemma EndsLineLater(buf: Bytes, i: nat)
    requires i < |buf| && buf[i] == NEWLINE
    ensures EndsLine(buf[i + 1..]) <==> EndsLine(buf)
  {
    var rest := buf[i + 1..];
    if rest != [] {
      assert rest[|rest| - 1] == buf[|buf| - 1];
    }
  }

  lemma {:induction false} LinesIff(buf: Bytes)
    ensures LostLines(buf).Some? <==> EndsLine(buf)
    decreases |buf|
  {
    var i := IndexByte(buf, NEWLINE);
    if i != -1 {
      EndsLineLater(buf, i);
      LinesIff(buf[i + 1..]);
      assert LostLines(buf) == InFront(buf[..i], LostLines(buf[i + 1..]));
    }
  }

  /** logLost: cuts line after line off; without a line end it slices out of range. */
  method LogLost(buf: Bytes) returns (lines: seq<Bytes>, crashed: bool)
    ensures crashed <==> !EndsLine(buf)
    ensures !crashed ==> LostLines(buf) == Some(lines)
  {
    lines := [];
    var rest := buf;
    LinesIff(buf);
    while |rest| > 0
      invariant LostLines(buf).None? <==> LostLines(rest).None?
      invariant LostLines(buf).Some? ==> LostLines(buf).value == lines + LostLines(rest).value
      decreases |rest|
    {
      var i := IndexByte(rest, NEWLINE);
      if i == -1 {
        return lines, true;
      }
      ghost var more := LostLines(rest[i + 1..]);
      if more.Some? {
        ConcatAssoc(lines, [rest[..i]], more.value);
      }
      lines := lines + [rest[..i]];
      rest := rest[i + 1..];
    }
    assert lines + [] == lines;
    crashed := false;
  }

  // ---- What they count and log -------------------------------------------------------------------------

  lemma {:induction false} NoLines(b: Bytes)
    requires NEWLINE !in b
    ensures CountLines(b) == 0 && (b != [] ==> LostLines(b) == None)
  {
    if b != [] {
      assert NEWLINE !in b[1..];
      NoLines(b[1..]);
    }
  }

  lemma {:induction false} CountConcat(a: Bytes, b: Bytes)
    ensures CountLines(a + b) == CountLines(a) + CountLines(b)
  {
    if a == [] {
      assert a + b == b;
    } else {
      assert (a + b)[1..] == a[1..] + b;
      CountConcat(a[1..], b);
    }
  }

  lemma OneMoreLine(line: Bytes, rest: Bytes)
    requires NEWLINE !in line
    ensures var b := line + [NEWLINE] + rest;
            && CountLines(b) == 1 + CountLines(rest)
            && LostLines(b) == InFront(line, LostLines(rest))
  {
    var b := line + [NEWLINE] + rest;
    CountConcat(line + [NEWLINE], rest);
    CountConcat(line, [NEWLINE]);
    NoLines(line);
    assert CountLines([NEWLINE]) == 1 + CountLines([]);
    assert b[..|line|] == line && b[|line| + 1..] == rest;
    IndexByteIs(b, NEWLINE, |line|);
  }

  // ---- What they get -----------------------------------------------------------------------------------

  /** The client drops one command when the queue is full, or what a broken connection had pending. */
  datatype Drop = QueueFull(id: CommandId) | Broken(ids: seq<CommandId>)

  function IdsOf(drop: Drop): seq<CommandId> {
    match drop case QueueFull(id) => [id] case Broken(ids) => ids
  }

  /** The commands that drops are about were submitted. */
  ghost predicate AllKnown(log: seq<Bytes>, ids: seq<CommandId>) {
    forall i :: 0 <= i < |ids| ==> ids[i] < |log| && IsCommand(log[ids[i]])
  }

  /** The point of a command, on one line. */
  predicate OneLine(cmd: Bytes) {
    IsCommand(cmd) && CommandPoint(cmd) != [] && NEWLINE !in CommandPoint(cmd)
  }

  lemma PutIsOneLine(ft: FloatText, d: Datum)
    requires Lawful(ft) && Valid(ft, d) && InRange(ft, d)
    ensures OneLine(PutCommand(ft, d))
  {
    CommandHoldsPoint(ft, d);
    PrintedIsOneLine(ft, d);
  }

  /** What a connection has pending: every point with a line end. */
  ghost function PendingText(log: seq<Bytes>, ids: seq<CommandId>): Bytes
    requires AllKnown(log, ids)
  {
    if ids == [] then [] else CommandPoint(log[ids[0]]) + [NEWLINE] + PendingText(log, ids[1..])
  }

  /** The bytes that the drop hook gets: for a full queue the point as it stands in its command. */
  ghost function DropText(log: seq<Bytes>, drop: Drop): Bytes
    requires AllKnown(log, IdsOf(drop))
  {
    match drop
    case QueueFull(id) =>
      assert IdsOf(drop)[0] == id;
      CommandPoint(log[id])
    case Broken(ids) => PendingText(log, ids)
  }

  /** How lost points read in the log of the relay. */
  ghost function Printed(log: seq<Bytes>, ids: seq<CommandId>): seq<Bytes>
    requires AllKnown(log, ids)
  {
    if ids == [] then [] else [CommandPoint(log[ids[0]])] + Printed(log, ids[1..])
  }

  ghost predicate AllOneLine(log: seq<Bytes>) {
    forall i :: 0 <= i < |log| ==> OneLine(log[i])
  }

  /** What a broken connection had pending is counted and logged point by point. */
  lemma {:induction false} PendingIsLogged(log: seq<Bytes>, ids: seq<CommandId>)
    requires AllOneLine(log) && AllKnown(log, ids)
    ensures CountLines(PendingText(log, ids)) == |ids|
    ensures LostLines(PendingText(log, ids)) == Some(Printed(log, ids))
  {
    if ids != [] {
      assert OneLine(log[ids[0]]);
      PendingIsLogged(log, ids[1..]);
      OneMoreLine(CommandPoint(log[ids[0]]), PendingText(log, ids[1..]));
    }
  }

  /** A point that finds the queue full has no line end: it is not counted, and logging it fails. */
  lemma QueueFullIsNot(log: seq<Bytes>, id: CommandId)
    requires AllOneLine(log) && AllKnown(log, [id])
    ensures var text := DropText(log, QueueFull(id)); CountLines(text) == 0 && LostLines(text) == None
  {
    assert [id][0] == id && OneLine(log[id]);
    NoLines(CommandPoint(log[id]));
  }

  // ---- The drops of a run ------------------------------------------------------------------------------

  /** What one step of the client drops. */
  function DropAt(p: Pool, a: Action): seq<Drop>
    requires Wired(p) && Enabled(p, a)
  {
    match a
    case Submit(_) => if |p.queue| < MAX_QUEUE then [] else [QueueFull(|p.log|)]
    case DropPending => [Broken(p.conns[p.sender.conn].pending)]
    case _ => []
  }

  function DropsOf(hash: Bytes -> nat, p: Pool, actions: seq<Action>): seq<Drop>
    requires Legal(hash, p, actions)
    decreases |actions|
  {
    if actions == [] then []
    else DropAt(p, actions[0]) + DropsOf(hash, Next(hash, p, actions[0]), actions[1..])
  }

  function LostIds(drops: seq<Drop>): seq<CommandId> {
    if drops == [] then [] else IdsOf(drops[0]) + LostIds(drops[1..])
  }

  lemma LostIdsCons(drop: Drop, drops: seq<Drop>)
    ensures LostIds([drop] + drops) == IdsOf(drop) + LostIds(drops)
  {
    assert ([drop] + drops)[1..] == drops;
  }

  lemma DroppedNext(hash: Bytes -> nat, p: Pool, a: Action, more: seq<Drop>)
    requires Wired(p) && Enabled(p, a)
    ensures p.dropped + LostIds(DropAt(p, a) + more) == Next(hash, p, a).dropped + LostIds(more)
  {
    var drops := DropAt(p, a);
    if drops == [] {
      assert [] + more == more;
    } else {
      LostIdsCons(drops[0], more);
      ConcatAssoc(p.dropped, IdsOf(drops[0]), LostIds(more));
    }
  }

  /** The hook is told of exactly the commands that the client drops, in order. */
  lemma {:induction false} DropsAreTold(hash: Bytes -> nat, p: Pool, actions: seq<Action>)
    requires Legal(hash, p, actions)
    ensures After(hash, p, actions).dropped == p.dropped + LostIds(DropsOf(hash, p, actions))
    decreases |actions|
  {
    if actions == [] {
      assert p.dropped + [] == p.dropped;
    } else {
      var q := Next(hash, p, actions[0]);
      DropsAreTold(hash, q, actions[1..]);
      DroppedNext(hash, p, actions[0], DropsOf(hash, q, actions[1..]));
    }
  }

  /** Whatever was dropped was submitted. */
  lemma DroppedIsKnown(p: Pool, slots: multiset<Address>)
    requires Inv(p, slots)
    ensures AllKnown(p.log, p.dropped)
  {
    forall i | 0 <= i < |p.dropped| ensures p.dropped[i] < |p.log| {
      assert p.dropped[i] in multiset(p.dropped) && p.dropped[i] in Everywhere(p);
      IdsOnce(|p.log|, p.dropped[i]);
    }
  }

  ghost predicate AllDropsKnown(log: seq<Bytes>, drops: seq<Drop>) {
    forall i :: 0 <= i < |drops| ==> AllKnown(log, IdsOf(drops[i]))
  }

  lemma {:induction false} KnownDrops(log: seq<Bytes>, drops: seq<Drop>)
    requires AllKnown(log, LostIds(drops))
    ensures AllDropsKnown(log, drops)
  {
    if drops != [] {
      var head, rest := IdsOf(drops[0]), LostIds(drops[1..]);
      assert forall i :: 0 <= i < |head| ==> head[i] == (head + rest)[i];
      assert forall i :: 0 <= i < |rest| ==> rest[i] == (head + rest)[|head| + i];
      KnownDrops(log, drops[1..]);
      assert forall i :: 0 < i < |drops| ==> drops[i] == drops[1..][i - 1];
    }
  }

  /** The value of the error counter after these drops. */
  ghost function Counted(log: seq<Bytes>, drops: seq<Drop>): nat
    requires AllDropsKnown(log, drops)
  {
    if drops == [] then 0 else CountLines(DropText(log, drops[0])) + Counted(log, drops[1..])
  }

  function FullQueues(drops: seq<Drop>): nat {
    if drops == [] then 0 else (if drops[0].QueueFull? then 1 else 0) + FullQueues(drops[1..])
  }

  lemma {:induction false} CountedAre(log: seq<Bytes>, drops: seq<Drop>)
    requires AllOneLine(log) && AllDropsKnown(log, drops)
    ensures Counted(log, drops) + FullQueues(drops) == |LostIds(drops)|
  {
    if drops != [] {
      CountedAre(log, drops[1..]);
      match drops[0]
      case QueueFull(id) => QueueFullIsNot(log, id);
      case Broken(ids) => PendingIsLogged(log, ids);
    }
  }

  /** Every command that is submitted holds its point on one line. */
  predicate SubmitsOneLine(a: Action) { a.Submit? ==> OneLine(a.cmd) }

  lemma {:induction false} LogIsOneLine(hash: Bytes -> nat, p: Pool, actions: seq<Action>)
    requires Legal(hash, p, actions) && forall i :: 0 <= i < |actions| ==> SubmitsOneLine(actions[i])
    requires AllOneLine(p.log)
    ensures AllOneLine(After(hash, p, actions).log)
  {
    var good := (p: Pool) => AllOneLine(p.log);
    forall p, a | good(p) && SubmitsOneLine(a) && Wired(p) && Enabled(p, a) ensures good(Next(hash, p, a)) {
    }
    RunKeeps(hash, p, actions, good, a => SubmitsOneLine(a));
  }

  lemma StartIsInv(slots: multiset<Address>)
    ensures Inv(Start(slots), slots)
  {
    assert Everywhere(Start(slots)) == multiset{};
  }

  lemma RunDrops(hash: Bytes -> nat, slots: multiset<Address>, actions: seq<Action>)
    requires Legal(hash, Start(slots), actions)
    requires forall i :: 0 <= i < |actions| ==> SubmitsOneLine(actions[i])
    ensures var q, drops := After(hash, Start(slots), actions), DropsOf(hash, Start(slots), actions);
            q.dropped == LostIds(drops) && AllOneLine(q.log) && AllDropsKnown(q.log, drops)
  {
    var start := Start(slots);
    var q, drops := After(hash, start, actions), DropsOf(hash, start, actions);
    StartIsInv(slots);
    InvAlways(hash, start, actions, slots);
    DroppedIsKnown(q, slots);
    DropsAreTold(hash, start, actions);
    assert [] + LostIds(drops) == LostIds(drops);
    KnownDrops(q.log, drops);
    LogIsOneLine(hash, start, actions);
  }

  /**
   Over every run of the client the counter of lost points is short of what the client dropped by exactly the points
   that found the queue full.
   */
  lemma CounterMissesFullQueues(hash: Bytes -> nat, slots: multiset<Address>, actions: seq<Action>)
    requires Legal(hash, Start(slots), actions)
    requires forall i :: 0 <= i < |actions| ==> SubmitsOneLine(actions[i])
    ensures var q, drops := After(hash, Start(slots), actions), DropsOf(hash, Start(slots), actions);
            AllDropsKnown(q.log, drops) && Counted(q.log, drops) + FullQueues(drops) == |q.dropped|
  {
    RunDrops(hash, slots, actions);
    CountedAre(After(hash, Start(slots), actions).log, DropsOf(hash, Start(slots), actions));
  }

  /** With logging, the program survives a run if and only if no point ever finds the queue full. */
  lemma LoggingSurvivesIff(hash: Bytes -> nat, slots: multiset<Address>, actions: seq<Action>)
    requires Legal(hash, Start(slots), actions)
    requires forall i :: 0 <= i < |actions| ==> SubmitsOneLine(actions[i])
    ensures var q, drops := After(hash, Start(slots), actions), DropsOf(hash, Start(slots), actions);
            && AllDropsKnown(q.log, drops)
            && ((forall i :: 0 <= i < |drops| ==> LostLines(DropText(q.log, drops[i])).Some?)
                <==> forall i :: 0 <= i < |drops| ==> !drops[i].QueueFull?)
  {
    RunDrops(hash, slots, actions);
    var log, drops := After(hash, Start(slots), actions).log, DropsOf(hash, Start(slots), actions);
    forall i | 0 <= i < |drops| ensures LostLines(DropText(log, drops[i])).Some? <==> !drops[i].QueueFull? {
      assert AllKnown(log, IdsOf(drops[i]));
      match drops[i]
      case QueueFull(id) => QueueFullIsNot(log, id);
      case Broken(ids) => PendingIsLogged(log, ids);
    }
  }

  // ---- A full queue ------------------------------------------------------------------------------------

  function Submits(cmd: Bytes, n: nat): seq<Action> {
    if n == 0 then [] else Submits(cmd, n - 1) + [Submit(cmd)]
  }

  lemma {:induction false} OnlySubmits(cmd: Bytes, n: nat)
    ensures forall i :: 0 <= i < |Submits(cmd, n)| ==> Submits(cmd, n)[i] == Submit(cmd)
  {
    if n > 0 {
      OnlySubmits(cmd, n - 1);
    }
  }

  /** So many commands were submitted, and none was taken from the queue. */
  ghost predicate Waiting(hash: Bytes -> nat, slots: multiset<Address>, actions: seq<Action>, n: nat) {
    && Legal(hash, Start(slots), actions)
    && var p := After(hash, Start(slots), actions);
       Wired(p) && p.sender == Idle && |p.queue| == n && |p.log| == n && p.dropped == []
  }

  lemma WaitingMore(hash: Bytes -> nat, slots: multiset<Address>, actions: seq<Action>, n: nat, cmd: Bytes)
    requires Waiting(hash, slots, actions, n) && n < MAX_QUEUE && IsCommand(cmd)
    ensures Waiting(hash, slots, actions + [Submit(cmd)], n + 1)
  {
    RunSnoc(hash, Start(slots), actions, Submit(cmd));
  }

  lemma {:induction false} QueueFills(hash: Bytes -> nat, slots: multiset<Address>, cmd: Bytes, n: nat)
    requires n <= MAX_QUEUE && IsCommand(cmd)
    ensures Waiting(hash, slots, Submits(cmd, n), n)
  {
    if n > 0 {
      QueueFills(hash, slots, cmd, n - 1);
      WaitingMore(hash, slots, Submits(cmd, n - 1), n - 1, cmd);
    }
  }

  lemma DropAtSubmit(p: Pool, a: Action, more: seq<Drop>)
    requires Wired(p) && Enabled(p, a) && a.Submit? && FullQueues(more) == |LostIds(more)|
    ensures FullQueues(DropAt(p, a) + more) == |LostIds(DropAt(p, a) + more)|
  {
    var drops := DropAt(p, a);
    if drops == [] {
      assert [] + more == more;
    } else {
      LostIdsCons(drops[0], more);
      assert (drops + more)[1..] == more;
    }
  }

  /** A run of nothing but submissions drops them one at a time. */
  lemma {:induction false} SubmitsDropSingly(hash: Bytes -> nat, p: Pool, actions: seq<Action>)
    requires Legal(hash, p, actions) && forall i :: 0 <= i < |actions| ==> actions[i].Submit?
    ensures FullQueues(DropsOf(hash, p, actions)) == |LostIds(DropsOf(hash, p, actions))|
    decreases |actions|
  {
    if actions != [] {
      var q := Next(hash, p, actions[0]);
      SubmitsDropSingly(hash, q, actions[1..]);
      DropAtSubmit(p, actions[0], DropsOf(hash, q, actions[1..]));
    }
  }

  /** One command more than the queue holds: it is dropped, and the counter stays at zero. */
  lemma FullQueueIsMissed(hash: Bytes -> nat, slots: multiset<Address>, cmd: Bytes) returns (actions: seq<Action>)
    requires OneLine(cmd)
    ensures Legal(hash, Start(slots), actions)
    ensures var q, drops := After(hash, Start(slots), actions), DropsOf(hash, Start(slots), actions);
            && q.dropped == [MAX_QUEUE] && AllDropsKnown(q.log, drops)
            && Counted(q.log, drops) == 0 && FullQueues(drops) == 1
  {
    actions := Submits(cmd, MAX_QUEUE + 1);
    QueueFills(hash, slots, cmd, MAX_QUEUE);
    RunSnoc(hash, Start(slots), Submits(cmd, MAX_QUEUE), Submit(cmd));
    OnlySubmits(cmd, MAX_QUEUE + 1);
    CounterMissesFullQueues(hash, slots, actions);
    RunDrops(hash, slots, actions);
    SubmitsDropSingly(hash, Start(slots), actions);
  }
}
