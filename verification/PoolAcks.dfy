/** What is acknowledged, what is pending and what is dropped, said of what each connection wrote. */
module PoolAcks {
  import opened Collections
  import opened Commands
  import opened Bytes
  import opened Client
  import opened PoolLaws

  /** Connected, or about to report what it had pending. */
  predicate Connected(p: Pool, k: ConnId) { k in p.up || p.sender == Removed(k) }

  predicate AnswersOn(p: Pool, a: Action, k: ConnId)
    requires Wired(p) && Enabled(p, a)
  {
    a.AckOk? && p.sender.conn == k
  }

  /** How much connection k had written when a version request on it was last answered; u before the run. */
  function UpTo(hash: Bytes -> nat, p: Pool, actions: seq<Action>, k: ConnId, u: nat): nat
    requires Legal(hash, p, actions)
    decreases |actions|
  {
    if actions == [] then u
    else UpTo(hash, Next(hash, p, actions[0]), actions[1..], k, UpToAt(p, actions[0], k, u))
  }

  /** What a list of ids grew by. */
  function Growth(before: seq<CommandId>, now: seq<CommandId>): seq<CommandId> {
    if |before| <= |now| then now[|before|..] else []
  }

  /** What one step acknowledges on connection k, and what it drops. */
  function AckedAt(hash: Bytes -> nat, p: Pool, a: Action, k: ConnId): seq<CommandId>
    requires Wired(p) && Enabled(p, a)
  {
    if AnswersOn(p, a, k) then Growth(p.acked, Next(hash, p, a).acked) else []
  }

  function DroppedAt(hash: Bytes -> nat, p: Pool, a: Action, k: ConnId): seq<CommandId>
    requires Wired(p) && Enabled(p, a)
  {
    if a.DropPending? && p.sender.conn == k then Growth(p.dropped, Next(hash, p, a).dropped) else []
  }

  function UpToAt(p: Pool, a: Action, k: ConnId, u: nat): nat
    requires Wired(p) && Enabled(p, a)
  {
    if AnswersOn(p, a, k) then |p.conns[k].wire| else u
  }

  /** What the answers on connection k acknowledged, in order. */
  function AckedOn(hash: Bytes -> nat, p: Pool, actions: seq<Action>, k: ConnId): seq<CommandId>
    requires Legal(hash, p, actions)
    decreases |actions|
  {
    if actions == [] then []
    else AckedAt(hash, p, actions[0], k) + AckedOn(hash, Next(hash, p, actions[0]), actions[1..], k)
  }

  /** What was reported to Drop when connection k was given up. */
  function DroppedOn(hash: Bytes -> nat, p: Pool, actions: seq<Action>, k: ConnId): seq<CommandId>
    requires Legal(hash, p, actions)
    decreases |actions|
  {
    if actions == [] then []
    else DroppedAt(hash, p, actions[0], k) + DroppedOn(hash, Next(hash, p, actions[0]), actions[1..], k)
  }

  function WireOf(p: Pool, k: ConnId): seq<CommandId> {
    if k < |p.conns| then p.conns[k].wire else []
  }

  function PendingOn(p: Pool, k: ConnId): seq<CommandId> {
    if k < |p.conns| then p.conns[k].pending else []
  }

  /**
   The books of connection k: what it wrote is what was acknowledged on it, u commands, and then what is pending; or,
   once it was given up, what was dropped.
   */
  ghost predicate Balanced(p: Pool, k: ConnId, u: nat, acked: seq<CommandId>, dropped: seq<CommandId>) {
    && u <= |WireOf(p, k)| && acked == WireOf(p, k)[..u]
    && (k < |p.conns| && !Connected(p, k) ==> PendingOn(p, k) == [] && dropped == WireOf(p, k)[u..])
    && (k >= |p.conns| || Connected(p, k) ==> PendingOn(p, k) == WireOf(p, k)[u..] && dropped == [])
  }

  // ---- One step ----------------------------------------------------------------------------------------

  lemma GrowthOf(before: seq<CommandId>, more: seq<CommandId>)
    ensures Growth(before, before + more) == more
  {
  }

  /** An answer acknowledges everything pending on its connection. */
  lemma AnswerBalances(hash: Bytes -> nat, p: Pool, u: nat, acked: seq<CommandId>)
    requires Wired(p) && Tidy(p) && Enabled(p, AckOk) && Balanced(p, p.sender.conn, u, acked, [])
    ensures var k, q := p.sender.conn, Next(hash, p, AckOk);
            Balanced(q, k, |p.conns[k].wire|, acked + Growth(p.acked, q.acked), [])
  {
    var k := p.sender.conn;
    GrowthOf(p.acked, p.conns[k].pending);
    assert acked + p.conns[k].wire[u..] == p.conns[k].wire;
  }

  lemma WriteBalances(hash: Bytes -> nat, p: Pool, u: nat, acked: seq<CommandId>, dropped: seq<CommandId>)
    requires Wired(p) && Tidy(p) && Enabled(p, WriteOk) && Balanced(p, p.sender.conn, u, acked, dropped)
    ensures Balanced(Next(hash, p, WriteOk), p.sender.conn, u, acked, dropped)
  {
    var k, id := p.sender.conn, p.sender.cmd;
    var conn := WriteOkParts(hash, p);
    var wire := p.conns[k].wire;
    assert (wire + [id])[u..] == wire[u..] + [id] && (wire + [id])[..u] == wire[..u];
  }

  /** Giving up a connection drops everything pending on it. */
  lemma DropBalances(hash: Bytes -> nat, p: Pool, u: nat, acked: seq<CommandId>, dropped: seq<CommandId>)
    requires Wired(p) && Tidy(p) && Enabled(p, DropPending) && Balanced(p, p.sender.conn, u, acked, dropped)
    ensures var k, q := p.sender.conn, Next(hash, p, DropPending);
            Balanced(q, k, u, acked, dropped + Growth(p.dropped, q.dropped))
  {
    var k := p.sender.conn;
    GrowthOf(p.dropped, p.conns[k].pending);
    assert [] + p.conns[k].pending == p.conns[k].pending;
  }

  lemma ConnKept(hash: Bytes -> nat, p: Pool, a: Action, k: ConnId)
    requires Wired(p) && Enabled(p, a) && k < |p.conns|
    requires a.AckOk? || a.WriteOk? || a.DropPending? ==> p.sender.conn != k
    ensures var q := Next(hash, p, a);
            k < |q.conns| && q.conns[k].wire == p.conns[k].wire && q.conns[k].pending == p.conns[k].pending
  {
  }

  lemma ConnectedKept(hash: Bytes -> nat, p: Pool, a: Action, k: ConnId)
    requires Wired(p) && Tidy(p) && Enabled(p, a) && k < |p.conns|
    requires a.DropPending? ==> p.sender.conn != k
    ensures Connected(Next(hash, p, a), k) <==> Connected(p, k)
  {
    if a.Remove? {
      WithoutIs(p.up, p.sender.conn);
    }
  }

  /** A connection that is not there yet starts with empty books. */
  lemma NoConnYet(hash: Bytes -> nat, p: Pool, a: Action, k: ConnId)
    requires Wired(p) && Tidy(p) && Enabled(p, a) && k >= |p.conns|
    ensures var q := Next(hash, p, a);
            WireOf(q, k) == [] && PendingOn(q, k) == [] && (k < |q.conns| ==> Connected(q, k))
  {
    if a.DialDone? {
      assert (p.up + [|p.conns|])[|p.up|] == |p.conns|;
    }
  }

  /** Every other step leaves connection k alone. */
  lemma OtherBalances(hash: Bytes -> nat, p: Pool, a: Action, k: ConnId, u: nat, acked: seq<CommandId>,
                      dropped: seq<CommandId>)
    requires Wired(p) && Tidy(p) && Enabled(p, a) && Balanced(p, k, u, acked, dropped)
    requires a.AckOk? || a.WriteOk? || a.DropPending? ==> p.sender.conn != k
    ensures Balanced(Next(hash, p, a), k, u, acked, dropped)
  {
    if k < |p.conns| {
      ConnKept(hash, p, a, k);
      ConnectedKept(hash, p, a, k);
    } else {
      NoConnYet(hash, p, a, k);
    }
  }

  // ---- Whole runs --------------------------------------------------------------------------------------

  lemma StepBalances(hash: Bytes -> nat, p: Pool, a: Action, k: ConnId, u: nat, acked: seq<CommandId>,
                     dropped: seq<CommandId>)
    requires Wired(p) && Tidy(p) && Enabled(p, a) && Balanced(p, k, u, acked, dropped)
    ensures Balanced(Next(hash, p, a), k, UpToAt(p, a, k, u), acked + AckedAt(hash, p, a, k),
                     dropped + DroppedAt(hash, p, a, k))
  {
    assert acked + [] == acked && dropped + [] == dropped;
    if AnswersOn(p, a, k) {
      assert dropped == [] by {
        assert k < |p.conns| && Connected(p, k);
      }
      AnswerBalances(hash, p, u, acked);
    } else if a.WriteOk? && p.sender.conn == k {
      WriteBalances(hash, p, u, acked, dropped);
    } else if a.DropPending? && p.sender.conn == k {
      DropBalances(hash, p, u, acked, dropped);
    } else {
      OtherBalances(hash, p, a, k, u, acked, dropped);
    }
  }

  lemma {:induction false} RunBalances(hash: Bytes -> nat, p: Pool, actions: seq<Action>, slots: multiset<Address>,
                                       k: ConnId, u: nat, acked: seq<CommandId>, dropped: seq<CommandId>)
    requires Inv(p, slots) && Legal(hash, p, actions) && Balanced(p, k, u, acked, dropped)
    ensures Balanced(After(hash, p, actions), k, UpTo(hash, p, actions, k, u), acked + AckedOn(hash, p, actions, k),
                     dropped + DroppedOn(hash, p, actions, k))
    decreases |actions|
  {
    if actions == [] {
      assert acked + [] == acked && dropped + [] == dropped;
    } else {
      var a, q, rest := actions[0], Next(hash, p, actions[0]), actions[1..];
      StepBalances(hash, p, a, k, u, acked, dropped);
      InvNext(hash, p, a, slots);
      RunBalances(hash, q, rest, slots, k, UpToAt(p, a, k, u), acked + AckedAt(hash, p, a, k),
                  dropped + DroppedAt(hash, p, a, k));
      ConcatAssoc(acked, AckedAt(hash, p, a, k), AckedOn(hash, q, rest, k));
      ConcatAssoc(dropped, DroppedAt(hash, p, a, k), DroppedOn(hash, q, rest, k));
    }
  }

  lemma StartIsBalanced(slots: multiset<Address>, k: ConnId)
    ensures Balanced(Start(slots), k, 0, [], [])
  {
  }

  lemma NothingBefore(s: seq<CommandId>)
    ensures [] + s == s
  {
  }

  /**
   Over every run and for every connection: the commands acknowledged on it are those that it wrote before its last
   answered version request, in order; those that it wrote since are pending, and when it is given up they are what is
   reported as dropped.
   */
  lemma AnsweredIsAcknowledged(hash: Bytes -> nat, hosts: seq<Address>, maxConns: nat, actions: seq<Action>, k: ConnId)
    requires Legal(hash, Start(Dials(hosts, maxConns)), actions)
    ensures var start := Start(Dials(hosts, maxConns));
            var q, u := After(hash, start, actions), UpTo(hash, start, actions, k, 0);
            k < |q.conns| ==>
              var wire := q.conns[k].wire;
              && u <= |wire| && AckedOn(hash, start, actions, k) == wire[..u]
              && (Connected(q, k) ==> q.conns[k].pending == wire[u..] && DroppedOn(hash, start, actions, k) == [])
              && (!Connected(q, k) ==> q.conns[k].pending == [] && DroppedOn(hash, start, actions, k) == wire[u..])
  {
    var start := Start(Dials(hosts, maxConns));
    Conservation(hash, hosts, maxConns, []);
    StartIsBalanced(Dials(hosts, maxConns), k);
    RunBalances(hash, start, actions, Dials(hosts, maxConns), k, 0, [], []);
    NothingBefore(AckedOn(hash, start, actions, k));
    NothingBefore(DroppedOn(hash, start, actions, k));
  }

  /** Nothing but an answered version request acknowledges anything. */
  lemma {:induction false} OnlyAnswersAcknowledge(hash: Bytes -> nat, p: Pool, actions: seq<Action>)
    requires Legal(hash, p, actions) && forall i :: 0 <= i < |actions| ==> !actions[i].AckOk?
    ensures After(hash, p, actions).acked == p.acked
    decreases |actions|
  {
    if actions != [] {
      assert Next(hash, p, actions[0]).acked == p.acked;
      OnlyAnswersAcknowledge(hash, Next(hash, p, actions[0]), actions[1..]);
    }
  }

  /** Whatever is acknowledged is acknowledged on some connection. */
  lemma {:induction false} AckedSomewhere(hash: Bytes -> nat, p: Pool, actions: seq<Action>, id: CommandId)
    requires Legal(hash, p, actions) && id in After(hash, p, actions).acked && id !in p.acked
    ensures exists k :: id in AckedOn(hash, p, actions, k)
    decreases |actions|
  {
    var q, rest := Next(hash, p, actions[0]), actions[1..];
    if id in q.acked {
      var k := p.sender.conn;
      GrowthOf(p.acked, p.conns[k].pending);
      assert id in Growth(p.acked, q.acked) + AckedOn(hash, q, rest, k);
      assert id in AckedOn(hash, p, actions, k);
    } else {
      AckedSomewhere(hash, q, rest, id);
      var k :| id in AckedOn(hash, q, rest, k);
      assert id in AckedOn(hash, p, actions, k);
    }
  }

  // ---- A connection that fails -------------------------------------------------------------------------

  /** The sender has done with connection k, or is about to. */
  ghost predicate Doomed(p: Pool, k: ConnId) {
    k < |p.conns| && (p.sender == Failing(k) || k !in p.up)
  }

  lemma DoomedNext(hash: Bytes -> nat, p: Pool, a: Action, k: ConnId)
    requires Wired(p) && Tidy(p) && Enabled(p, a) && Doomed(p, k)
    ensures Doomed(Next(hash, p, a), k) && Next(hash, p, a).conns[k].wire == p.conns[k].wire
    ensures a.Take? ==> k !in p.up
  {
    if a.Remove? {
      WithoutIs(p.up, p.sender.conn);
    }
  }

  lemma {:induction false} DoomedStays(hash: Bytes -> nat, p: Pool, actions: seq<Action>, slots: multiset<Address>,
                                       k: ConnId)
    requires Inv(p, slots) && Legal(hash, p, actions) && Doomed(p, k)
    ensures var q := After(hash, p, actions); Doomed(q, k) && q.conns[k].wire == p.conns[k].wire
    decreases |actions|
  {
    if actions != [] {
      DoomedNext(hash, p, actions[0], k);
      InvNext(hash, p, actions[0], slots);
      DoomedStays(hash, Next(hash, p, actions[0]), actions[1..], slots, k);
    }
  }

  /**
   After a Write or a version request failed, nothing more is ever written on the connection, and before the sender
   takes another command the connection is out of the list and has reported what it had pending.
   */
  lemma FailedIsGivenUp(hash: Bytes -> nat, p: Pool, a: Action, actions: seq<Action>, slots: multiset<Address>)
    requires Inv(p, slots) && Enabled(p, a) && (a.WriteFail? || a.AckFail?)
    requires Legal(hash, Next(hash, p, a), actions)
    ensures var k, q := p.sender.conn, After(hash, Next(hash, p, a), actions);
            && k < |q.conns| && q.conns[k].wire == p.conns[k].wire
            && (q.sender == Idle ==> k !in q.up && q.conns[k].pending == [])
  {
    var k, failed := p.sender.conn, Next(hash, p, a);
    FailureDooms(hash, p, a);
    InvNext(hash, p, a, slots);
    InvAlways(hash, failed, actions, slots);
    DoomedStays(hash, failed, actions, slots, k);
    if After(hash, failed, actions).sender == Idle {
      IdleIsDone(After(hash, failed, actions), k);
    }
  }

  lemma FailureDooms(hash: Bytes -> nat, p: Pool, a: Action)
    requires Wired(p) && Enabled(p, a) && (a.WriteFail? || a.AckFail?)
    ensures var k, q := p.sender.conn, Next(hash, p, a); Doomed(q, k) && q.conns[k].wire == p.conns[k].wire
  {
  }

  lemma IdleIsDone(q: Pool, k: ConnId)
    requires Tidy(q) && Doomed(q, k) && q.sender == Idle
    ensures k !in q.up && q.conns[k].pending == []
  {
    assert ConnTidy(q.conns[k], k, q.up, q.sender);
  }

  // ---- Which connection --------------------------------------------------------------------------------

  lemma UniqueAt(up: seq<ConnId>, i: nat, j: nat)
    requires Unique(up) && i < |up| && j < |up|
    ensures up[i] == up[j] <==> i == j
  {
  }

  /**
   While the list of connections does not change, two commands are written to one connection if and only if the hashes
   of their series agree modulo the number of connections.
   */
  lemma {:induction false} SameConnectionIff(hash: Bytes -> nat, p: Pool, actions: seq<Action>,
                                             slots: multiset<Address>, q: Pool, k: ConnId, i: nat, m: ConnId, j: nat)
    requires Inv(p, slots) && Legal(hash, p, actions) && !p.sender.Routed? && q == After(hash, p, actions)
    requires forall x :: 0 <= x < |actions| ==> KeepsUp(actions[x])
    requires WrittenSince(p, q, k, i) && WrittenSince(p, q, m, j)
    ensures var a, b := SeriesBytes(q.log[q.conns[k].wire[i]]).value, SeriesBytes(q.log[q.conns[m].wire[j]]).value;
            q.up != [] && (k == m <==> hash(a) % |q.up| == hash(b) % |q.up|)
  {
    var good := (r: Pool) => Going(hash, p, r, slots);
    forall r, a | good(r) && KeepsUp(a) && Wired(r) && Enabled(r, a) ensures good(Next(hash, r, a)) {
      StickyStep(hash, p, r, a, slots);
    }
    RunKeeps(hash, p, actions, good, a => KeepsUp(a));
    SameConn(hash, p, q, k, i);
    SameConn(hash, p, q, m, j);
    var a, b := SeriesBytes(q.log[q.conns[k].wire[i]]).value, SeriesBytes(q.log[q.conns[m].wire[j]]).value;
    UniqueAt(q.up, hash(a) % |q.up|, hash(b) % |q.up|);
  }
}
