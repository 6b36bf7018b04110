/** Client.Put: the repeat suppressor in front of the queue. */
module ClientPut {
  import opened Bytes
  import opened Points
  import opened Codec
  import opened Commands
  import opened RoundTrip
  import opened Repeat
  import opened Client

  /** A point can be routed exactly if it has a tag, whatever its time and value. */
  lemma HashableIffTagged(ft: FloatText, d: Datum, t: int, v: Value)
    requires Lawful(ft) && Valid(ft, d) && InRange(ft, d.(time := t, value := v))
    ensures Hashable(PutCommand(ft, d.(time := t, value := v))) <==> d.tags != []
  {
    var e := d.(time := t, value := v);
    var ts :| ValidAs(ft, d, ts);
    assert ValidAs(ft, e, ts);
    SeriesBytesIff(ft, e);
  }

  ghost predicate AllInRange(ft: FloatText, ds: seq<Datum>) {
    forall i :: 0 <= i < |ds| ==> InRange(ft, ds[i])
  }

  /** What one Put queues: without suppression the point, else the held point before it, or nothing for a repeat. */
  function Queues(dropRepeats: bool, t: Table, d: Datum, now: int): seq<Datum> {
    if dropRepeats then Emits(Verdict(t, d, now), d) else [d]
  }

  lemma QueuesAre(dropRepeats: bool, t: Table, d: Datum, now: int)
    ensures var j := Verdict(t, d, now);
            && !(j.held.Some? && j.isRepeat)
            && Queues(dropRepeats, t, d, now)
            == if !dropRepeats then [d]
               else if j.held.Some? then [d.(time := j.held.value.t, value := j.held.value.value), d]
               else if j.isRepeat then [] else [d]
  {
  }

  /** The pool after one more command. */
  function Sent(hash: Bytes -> nat, p: Pool, cmd: Bytes): (q: Pool)
    requires Wired(p) && !p.sender.Panicked? && IsCommand(cmd)
    ensures Wired(q) && q.sender == p.sender
  {
    Next(hash, p, Submit(cmd))
  }

  /** The pool after the commands of these points were submitted, one after the other. */
  function Queued(hash: Bytes -> nat, p: Pool, ft: FloatText, ds: seq<Datum>): (q: Pool)
    requires Wired(p) && !p.sender.Panicked? && AllInRange(ft, ds)
    ensures Wired(q) && q.sender == p.sender
  {
    if ds == [] then p
    else Sent(hash, Queued(hash, p, ft, ds[..|ds| - 1]), PutCommand(ft, ds[|ds| - 1]))
  }

  lemma QueuedOne(hash: Bytes -> nat, p: Pool, ft: FloatText, d: Datum)
    requires Wired(p) && !p.sender.Panicked? && InRange(ft, d)
    ensures Queued(hash, p, ft, [d]) == Sent(hash, p, PutCommand(ft, d))
  {
    assert [d][..0] == [];
  }

  lemma QueuedTwo(hash: Bytes -> nat, p: Pool, ft: FloatText, a: Datum, b: Datum)
    requires Wired(p) && !p.sender.Panicked? && InRange(ft, a) && InRange(ft, b)
    ensures Queued(hash, p, ft, [a, b]) == Sent(hash, Queued(hash, p, ft, [a]), PutCommand(ft, b))
  {
    assert [a, b][..1] == [a];
  }

  /**
   Puts a point: if repeats are dropped, the held point is queued before the current one, and a repeat is not
   queued at all.
   */
  method Put(c: Client, tester: RepeatTester, dropRepeats: bool, point: Point, now: int)
    requires tester.Valid() && InRange(tester.ft, point.Contents()) && Wired(c.State()) && !c.State().sender.Panicked?
    modifies c, tester, point
    ensures point.Contents() == old(point.Contents()) && tester.Valid()
    ensures tester.State()
         == if dropRepeats then Tested(old(tester.State()), point.Contents(), now) else old(tester.State())
    ensures var ds := Queues(dropRepeats, old(tester.State()), point.Contents(), now);
            && AllInRange(tester.ft, ds)
            && c.State() == Queued(c.hash, old(c.State()), tester.ft, ds)
  {
    ghost var d, t, p := point.Contents(), tester.State(), c.State();
    QueuesAre(dropRepeats, t, d, now);
    QueuedOne(c.hash, p, tester.ft, d);
    var isRepeat, held := false, None;
    if dropRepeats {
      isRepeat, held := tester.Test(point, now);
      if held.Some? {
        ghost var h := d.(time := Verdict(t, d, now).held.value.t, value := Verdict(t, d, now).held.value.value);
        QueuedOne(c.hash, p, tester.ft, h);
        QueuedTwo(c.hash, p, tester.ft, h, d);
        c.Send(held.value);
      }
    }
    if isRepeat {
      return;
    }
    var cmd := Commands.Put(tester.ft, point);
    c.Send(cmd);
  }
}
