/** What holds in every reachable state of the client's connection pool. */
module PoolLaws {
  import opened Bytes
  import opened Collections
  import opened Commands
  import opened Client

  type Ids = multiset<CommandId>

  // ---- Where the commands are --------------------------------------------------------------------------

  function Hand(s: Sender): seq<CommandId> {
    match s
    case Holding(c) => [c]
    case Routed(c, _) => [c]
    case Panicked(c) => [c]
    case _ => []
  }

  function PendingOf(conns: seq<Conn>): Ids {
    if conns == [] then multiset{} else multiset(conns[0].pending) + PendingOf(conns[1..])
  }

  function LostBy(c: Conn): Ids {
    match c.lost case None => multiset{} case Some(id) => multiset{id}
  }

  function LostOf(conns: seq<Conn>): Ids {
    if conns == [] then multiset{} else LostBy(conns[0]) + LostOf(conns[1..])
  }

  function Total(queue: Ids, hand: Ids, pending: Ids, lost: Ids, acked: Ids, dropped: Ids): Ids {
    queue + hand + pending + lost + acked + dropped
  }

  /** Every command, with the number of places it is in. */
  function Everywhere(p: Pool): Ids {
    Total(multiset(p.queue), multiset(Hand(p.sender)), PendingOf(p.conns), LostOf(p.conns),
          multiset(p.acked), multiset(p.dropped))
  }

  /** The commands submitted so far, once each. */
  function FirstIds(n: nat): Ids {
    if n == 0 then multiset{} else FirstIds(n - 1) + multiset{n - 1}
  }

  lemma {:induction false} IdsOnce(n: nat, i: nat)
    ensures FirstIds(n)[i] == if i < n then 1 else 0
  {
    if n > 0 {
      IdsOnce(n - 1, i);
    }
  }

  lemma AddSame(h: Ids, a: Ids, x: Ids,
                b: Ids, y: Ids)
    requires a + x == b + y
    ensures (h + a) + x == (h + b) + y
  {
    assert forall e :: a[e] + x[e] == (a + x)[e] == b[e] + y[e];
  }

  lemma {:induction false} PendingUpdate(conns: seq<Conn>, k: nat, c: Conn)
    requires k < |conns|
    ensures PendingOf(conns[k := c]) + multiset(conns[k].pending) == PendingOf(conns) + multiset(c.pending)
  {
    if k == 0 {
      assert conns[k := c][1..] == conns[1..];
    } else {
      var rest, rest' := conns[1..], conns[1..][k - 1 := c];
      assert conns[k := c][1..] == rest';
      PendingUpdate(rest, k - 1, c);
      AddSame(multiset(conns[0].pending), PendingOf(rest'), multiset(conns[k].pending),
              PendingOf(rest), multiset(c.pending));
    }
  }

  lemma {:induction false} LostUpdate(conns: seq<Conn>, k: nat, c: Conn)
    requires k < |conns|
    ensures LostOf(conns[k := c]) + LostBy(conns[k]) == LostOf(conns) + LostBy(c)
  {
    if k == 0 {
      assert conns[k := c][1..] == conns[1..];
    } else {
      var rest, rest' := conns[1..], conns[1..][k - 1 := c];
      assert conns[k := c][1..] == rest';
      LostUpdate(rest, k - 1, c);
      AddSame(LostBy(conns[0]), LostOf(rest'), LostBy(conns[k]), LostOf(rest), LostBy(c));
    }
  }

  lemma Cancel(a: Ids, b: Ids, x: Ids)
    requires a + x == b + x
    ensures a == b
  {
    assert forall e :: a[e] + x[e] == (a + x)[e] == b[e] + x[e];
  }

  lemma PendingGrows(conns: seq<Conn>, k: nat, c: Conn, id: CommandId)
    requires k < |conns| && c.pending == conns[k].pending + [id] && c.lost == conns[k].lost
    ensures PendingOf(conns[k := c]) == PendingOf(conns) + multiset{id}
    ensures LostOf(conns[k := c]) == LostOf(conns)
  {
    PendingUpdate(conns, k, c);
    LostUpdate(conns, k, c);
    var x := multiset(conns[k].pending);
    assert multiset(c.pending) == multiset{id} + x;
    assert PendingOf(conns) + multiset(c.pending) == (PendingOf(conns) + multiset{id}) + x;
    Cancel(PendingOf(conns[k := c]), PendingOf(conns) + multiset{id}, x);
    Cancel(LostOf(conns[k := c]), LostOf(conns), LostBy(c));
  }

  lemma PendingClears(conns: seq<Conn>, k: nat, c: Conn)
    requires k < |conns| && c.pending == [] && c.lost == conns[k].lost
    ensures PendingOf(conns) == PendingOf(conns[k := c]) + multiset(conns[k].pending)
    ensures LostOf(conns[k := c]) == LostOf(conns)
  {
    PendingUpdate(conns, k, c);
    LostUpdate(conns, k, c);
    Cancel(LostOf(conns[k := c]), LostOf(conns), LostBy(c));
  }

  lemma LostGrows(conns: seq<Conn>, k: nat, c: Conn, id: CommandId)
    requires k < |conns| && c.pending == conns[k].pending && conns[k].lost == None && c.lost == Some(id)
    ensures PendingOf(conns[k := c]) == PendingOf(conns)
    ensures LostOf(conns[k := c]) == LostOf(conns) + multiset{id}
  {
    PendingUpdate(conns, k, c);
    LostUpdate(conns, k, c);
    Cancel(PendingOf(conns[k := c]), PendingOf(conns), multiset(c.pending));
  }

  lemma {:induction false} PendingSnoc(conns: seq<Conn>, c: Conn)
    ensures PendingOf(conns + [c]) == PendingOf(conns) + multiset(c.pending)
    ensures LostOf(conns + [c]) == LostOf(conns) + LostBy(c)
  {
    if conns == [] {
      assert conns + [c] == [c] && [c][1..] == [];
    } else {
      assert (conns + [c])[1..] == conns[1..] + [c];
      PendingSnoc(conns[1..], c);
    }
  }

  // ---- Connections -------------------------------------------------------------------------------------

  /** The connection the sender is busy with. */
  function Busy(s: Sender): Option<ConnId> {
    match s
    case Idle => None
    case Holding(_) => None
    case Routed(_, k) => Some(k)
    case Written(k) => Some(k)
    case Failing(k) => Some(k)
    case Removed(k) => Some(k)
    case Panicked(_) => None
  }

  /**
   The list holds distinct connections; the sender's is among them until it is removed; a connection that
   lost a command is about to be removed; and one outside the list has nothing left to report.
   */
  ghost predicate Tidy(p: Pool) {
    && Unique(p.up)
    && (Busy(p.sender).Some? ==> (Busy(p.sender).value in p.up <==> !p.sender.Removed?))
    && (forall k :: 0 <= k < |p.conns| ==> ConnTidy(p.conns[k], k, p.up, p.sender))
  }

  ghost predicate Unique(up: seq<ConnId>) {
    forall i, j :: 0 <= i < j < |up| ==> up[i] != up[j]
  }

  ghost predicate ConnTidy(c: Conn, k: ConnId, up: seq<ConnId>, sender: Sender) {
    && (k in up && c.lost.Some? ==> sender == Failing(k))
    && (k !in up && sender != Removed(k) ==> c.pending == [])
  }

  function Addresses(up: seq<ConnId>, conns: seq<Conn>): multiset<Address>
    requires forall i :: 0 <= i < |up| ==> up[i] < |conns|
  {
    if up == [] then multiset{} else multiset{conns[up[0]].addr} + Addresses(up[1..], conns)
  }

  /** Live connections, plus dials in progress, plus the connection being replaced. */
  function Slots(p: Pool): multiset<Address>
    requires Wired(p)
  {
    Addresses(p.up, p.conns) + p.dialing
    + (if p.sender.Removed? then multiset{p.conns[p.sender.conn].addr} else multiset{})
  }

  lemma {:induction false} AddressesKept(up: seq<ConnId>, conns: seq<Conn>, conns': seq<Conn>)
    requires |conns| <= |conns'|
    requires forall k :: 0 <= k < |conns| ==> conns'[k].addr == conns[k].addr
    requires forall i :: 0 <= i < |up| ==> up[i] < |conns|
    ensures Addresses(up, conns') == Addresses(up, conns)
  {
    if up != [] {
      AddressesKept(up[1..], conns, conns');
    }
  }

  lemma {:induction false} AddressesSnoc(up: seq<ConnId>, k: ConnId, conns: seq<Conn>)
    requires forall i :: 0 <= i < |up| ==> up[i] < |conns|
    requires k < |conns|
    ensures Addresses(up + [k], conns) == Addresses(up, conns) + multiset{conns[k].addr}
  {
    if up == [] {
      assert up + [k] == [k] && [k][1..] == [];
    } else {
      assert (up + [k])[1..] == up[1..] + [k];
      AddressesSnoc(up[1..], k, conns);
    }
  }

  lemma {:induction false} WithoutIs(up: seq<ConnId>, k: ConnId)
    requires Unique(up)
    ensures Unique(Without(up, k)) && forall x :: x in Without(up, k) <==> x in up && x != k
  {
    if up != [] {
      WithoutIs(up[1..], k);
      HeadTail(up);
      assert up[0] !in up[1..];
    }
  }

  lemma {:induction false} WithoutBelow(up: seq<ConnId>, k: ConnId, n: nat)
    requires forall i :: 0 <= i < |up| ==> up[i] < n
    ensures forall i :: 0 <= i < |Without(up, k)| ==> Without(up, k)[i] < n
  {
    if up != [] {
      WithoutBelow(up[1..], k, n);
    }
  }

  lemma {:induction false} WithoutAbsent(up: seq<ConnId>, k: ConnId)
    requires k !in up
    ensures Without(up, k) == up
  {
    if up != [] {
      HeadTail(up);
      WithoutAbsent(up[1..], k);
    }
  }

  lemma AddressesCons(k: ConnId, rest: seq<ConnId>, conns: seq<Conn>)
    requires k < |conns| && forall i :: 0 <= i < |rest| ==> rest[i] < |conns|
    ensures Addresses([k] + rest, conns) == multiset{conns[k].addr} + Addresses(rest, conns)
  {
    assert ([k] + rest)[1..] == rest;
  }

  lemma {:induction false} AddressesWithout(up: seq<ConnId>, k: ConnId, conns: seq<Conn>)
    requires Unique(up) && k in up
    requires forall i :: 0 <= i < |up| ==> up[i] < |conns|
    ensures forall i :: 0 <= i < |Without(up, k)| ==> Without(up, k)[i] < |conns|
    ensures Addresses(up, conns) == Addresses(Without(up, k), conns) + multiset{conns[k].addr}
  {
    var head, rest := up[0], up[1..];
    HeadTail(up);
    assert head !in rest;
    WithoutBelow(rest, k, |conns|);
    AddressesCons(head, rest, conns);
    if head == k {
      WithoutAbsent(rest, k);
    } else {
      AddressesWithout(rest, k, conns);
      AddressesCons(head, Without(rest, k), conns);
    }
  }

  // ---- Order -------------------------------------------------------------------------------------------

  ghost predicate Ascending(s: seq<CommandId>) {
    forall i, j :: 0 <= i < j < |s| ==> s[i] < s[j]
  }

  /**
   Every connection carries commands in the order they were submitted, all of them older than what waits,
   and its pending commands are the last it wrote.
   */
  ghost predicate InOrder(p: Pool) {
    Lined(Hand(p.sender) + p.queue, p.conns, |p.log|)
  }

  ghost predicate Lined(waiting: seq<CommandId>, conns: seq<Conn>, n: nat) {
    && Ascending(waiting)
    && (forall i :: 0 <= i < |waiting| ==> waiting[i] < n)
    && (forall k :: 0 <= k < |conns| ==> WireOk(conns[k], waiting, n))
  }

  ghost predicate WireOk(c: Conn, waiting: seq<CommandId>, n: nat) {
    && Ascending(c.wire)
    && (forall i :: 0 <= i < |c.wire| ==> c.wire[i] < n)
    && (forall i, j :: 0 <= i < |c.wire| && 0 <= j < |waiting| ==> c.wire[i] < waiting[j])
    && |c.pending| <= |c.wire| && c.pending == c.wire[|c.wire| - |c.pending|..]
  }

  // ---- The invariant -----------------------------------------------------------------------------------

  ghost predicate Inv(p: Pool, slots: multiset<Address>) {
    && Wired(p) && Everywhere(p) == FirstIds(|p.log|) && Tidy(p) && Slots(p) == slots && InOrder(p)
    && |p.queue| <= MAX_QUEUE
  }

  /** Wherever x is added, it adds to the total. */
  lemma TotalAdds(a: Ids, b: Ids, c: Ids, d: Ids, e: Ids, f: Ids, x: Ids)
    ensures Total(a + x, b, c, d, e, f) == Total(a, b, c, d, e, f) + x
    ensures Total(a, b + x, c, d, e, f) == Total(a, b, c, d, e, f) + x
    ensures Total(a, b, c + x, d, e, f) == Total(a, b, c, d, e, f) + x
    ensures Total(a, b, c, d + x, e, f) == Total(a, b, c, d, e, f) + x
    ensures Total(a, b, c, d, e + x, f) == Total(a, b, c, d, e, f) + x
    ensures Total(a, b, c, d, e, f + x) == Total(a, b, c, d, e, f) + x
  {
  }

  lemma SeqAdds(s: seq<CommandId>, t: seq<CommandId>)
    ensures multiset(s + t) == multiset(s) + multiset(t)
  {
  }

  /** Submitting adds one new command; nothing else adds or takes away any. */
  function News(p: Pool, a: Action): Ids {
    if a.Submit? then multiset{|p.log|} else multiset{}
  }

  lemma SubmitAdds(hash: Bytes -> nat, p: Pool, cmd: Bytes)
    requires Wired(p) && Enabled(p, Submit(cmd))
    ensures Everywhere(Next(hash, p, Submit(cmd))) == Everywhere(p) + multiset{|p.log|}
  {
    var q := Next(hash, p, Submit(cmd));
    var x: Ids := multiset{|p.log|};
    assert multiset([|p.log|]) == x;
    var pending, lost := PendingOf(p.conns), LostOf(p.conns);
    assert q.conns == p.conns && q.sender == p.sender && q.acked == p.acked;
    TotalAdds(multiset(p.queue), multiset(Hand(p.sender)), pending, lost, multiset(p.acked), multiset(p.dropped), x);
    if |p.queue| < MAX_QUEUE {
      SeqAdds(p.queue, [|p.log|]);
      assert multiset(q.queue) == multiset(p.queue) + x;
    } else {
      SeqAdds(p.dropped, [|p.log|]);
      assert multiset(q.dropped) == multiset(p.dropped) + x;
    }
  }

  lemma TakeAdds(hash: Bytes -> nat, p: Pool)
    requires Wired(p) && Enabled(p, Take)
    ensures Everywhere(Next(hash, p, Take)) == Everywhere(p)
  {
    var x: Ids := multiset{p.queue[0]};
    HeadTail(p.queue);
    SeqAdds([p.queue[0]], p.queue[1..]);
    assert multiset([p.queue[0]]) == x && multiset{} + x == x;
    assert multiset(p.queue) == multiset(p.queue[1..]) + x;
    TotalAdds(multiset(p.queue[1..]), multiset{}, PendingOf(p.conns), LostOf(p.conns),
              multiset(p.acked), multiset(p.dropped), x);
  }

  /** What leaves the hand for a batch, or gets lost, stays in the total. */
  lemma HandMoves(a: Ids, c: Ids, d: Ids, e: Ids, f: Ids, id: CommandId)
    ensures Total(a, multiset([id]), c, d, e, f) == Total(a, multiset([]), c + multiset{id}, d, e, f)
    ensures Total(a, multiset([id]), c, d, e, f) == Total(a, multiset([]), c, d + multiset{id}, e, f)
  {
    var x: Ids := multiset{id};
    TotalAdds(a, multiset{}, c, d, e, f, x);
    assert multiset([id]) == multiset{} + x;
  }

  lemma WriteOkAdds(hash: Bytes -> nat, p: Pool)
    requires Wired(p) && Enabled(p, WriteOk)
    ensures Everywhere(Next(hash, p, WriteOk)) == Everywhere(p)
  {
    var conn := WriteOkParts(hash, p);
    PendingGrows(p.conns, p.sender.conn, conn, p.sender.cmd);
    HandMoves(multiset(p.queue), PendingOf(p.conns), LostOf(p.conns), multiset(p.acked), multiset(p.dropped),
              p.sender.cmd);
  }

  lemma WriteFailAdds(hash: Bytes -> nat, p: Pool)
    requires Wired(p) && Tidy(p) && Enabled(p, WriteFail)
    ensures Everywhere(Next(hash, p, WriteFail)) == Everywhere(p)
  {
    var conn := WriteFailParts(hash, p);
    assert ConnTidy(p.conns[p.sender.conn], p.sender.conn, p.up, p.sender);
    LostGrows(p.conns, p.sender.conn, conn, p.sender.cmd);
    HandMoves(multiset(p.queue), PendingOf(p.conns), LostOf(p.conns), multiset(p.acked), multiset(p.dropped),
              p.sender.cmd);
  }

  lemma OtherAdds(hash: Bytes -> nat, p: Pool, a: Action)
    requires Wired(p) && Enabled(p, a)
    requires a.Lookup? || a.AckNotDue? || a.AckFail? || a.Remove?
    ensures Everywhere(Next(hash, p, a)) == Everywhere(p)
  {
    var q := Next(hash, p, a);
    assert Hand(q.sender) == Hand(p.sender) && q.conns == p.conns && q.queue == p.queue;
    assert q.acked == p.acked && q.dropped == p.dropped;
  }

  lemma ClearAdds(hash: Bytes -> nat, p: Pool, a: Action)
    requires Wired(p) && Enabled(p, a) && (a.AckOk? || a.DropPending?)
    ensures Everywhere(Next(hash, p, a)) == Everywhere(p)
  {
    var q, k := Next(hash, p, a), p.sender.conn;
    var x: Ids := multiset(p.conns[k].pending);
    PendingClears(p.conns, k, q.conns[k]);
    SeqAdds(p.acked, p.conns[k].pending);
    SeqAdds(p.dropped, p.conns[k].pending);
    TotalAdds(multiset(p.queue), multiset{}, PendingOf(q.conns), LostOf(p.conns),
              multiset(p.acked), multiset(p.dropped), x);
  }

  lemma DialAdds(hash: Bytes -> nat, p: Pool, addr: Address)
    requires Wired(p) && Enabled(p, DialDone(addr))
    ensures Everywhere(Next(hash, p, DialDone(addr))) == Everywhere(p)
  {
    PendingSnoc(p.conns, Conn(addr, [], [], None));
    assert PendingOf(p.conns) + multiset([]) == PendingOf(p.conns);
    assert LostOf(p.conns) + multiset{} == LostOf(p.conns);
  }

  lemma ConservedNext(hash: Bytes -> nat, p: Pool, a: Action)
    requires Wired(p) && Tidy(p) && Enabled(p, a)
    ensures Everywhere(Next(hash, p, a)) == Everywhere(p) + News(p, a)
  {
    assert Everywhere(p) + multiset{} == Everywhere(p);
    match a
    case Submit(cmd) => SubmitAdds(hash, p, cmd);
    case Take => TakeAdds(hash, p);
    case WriteOk => WriteOkAdds(hash, p);
    case WriteFail => WriteFailAdds(hash, p);
    case AckOk => ClearAdds(hash, p, a);
    case DropPending => ClearAdds(hash, p, a);
    case DialDone(addr) => DialAdds(hash, p, addr);
    case _ => OtherAdds(hash, p, a);
  }

  lemma LogNext(hash: Bytes -> nat, p: Pool, a: Action)
    requires Wired(p) && Enabled(p, a)
    ensures FirstIds(|Next(hash, p, a).log|) == FirstIds(|p.log|) + News(p, a)
  {
    var n := |p.log|;
    if a.Submit? {
      assert |Next(hash, p, a).log| == n + 1;
    } else {
      assert Next(hash, p, a).log == p.log && FirstIds(n) + multiset{} == FirstIds(n);
    }
  }

  lemma WiredNext(hash: Bytes -> nat, p: Pool, a: Action)
    requires Wired(p) && Tidy(p) && Enabled(p, a) && forall i :: 0 <= i < |p.queue| ==> p.queue[i] < |p.log|
    ensures Wired(Next(hash, p, a))
  {
    if a.Remove? {
      WithoutBelow(p.up, p.sender.conn, |p.conns|);
    } else if a.Lookup? && Hashable(p.log[p.sender.cmd]) {
      assert Route(hash, p.log[p.sender.cmd], p.up) < |p.conns|;
    }
  }

  /** A step that leaves the list alone keeps every connection tidy if it leaves the sender's one tidy. */
  lemma TidyConns(p: Pool, q: Pool, j: ConnId)
    requires Tidy(p) && q.up == p.up && |q.conns| == |p.conns|
    requires forall k :: 0 <= k < |p.conns| && k != j ==> q.conns[k] == p.conns[k]
    requires Busy(p.sender).Some? ==> Busy(p.sender) == Some(j)
    requires Busy(q.sender).Some? ==> Busy(q.sender) == Some(j) && (j in p.up <==> !q.sender.Removed?)
    requires j < |p.conns| ==> ConnTidy(q.conns[j], j, q.up, q.sender)
    ensures Tidy(q)
  {
    forall k | 0 <= k < |q.conns| ensures ConnTidy(q.conns[k], k, q.up, q.sender) {
      assert ConnTidy(p.conns[k], k, p.up, p.sender);
    }
  }

  lemma TidyRemove(hash: Bytes -> nat, p: Pool)
    requires Wired(p) && Tidy(p) && Enabled(p, Remove)
    ensures Tidy(Next(hash, p, Remove))
  {
    var q := Next(hash, p, Remove);
    WithoutIs(p.up, p.sender.conn);
    forall k | 0 <= k < |q.conns| ensures ConnTidy(q.conns[k], k, q.up, q.sender) {
      assert ConnTidy(p.conns[k], k, p.up, p.sender);
    }
  }

  lemma TidyDial(hash: Bytes -> nat, p: Pool, addr: Address)
    requires Wired(p) && Tidy(p) && Enabled(p, DialDone(addr))
    ensures Tidy(Next(hash, p, DialDone(addr)))
  {
    var q := Next(hash, p, DialDone(addr));
    assert |p.conns| !in p.up;
    forall k | 0 <= k < |q.conns| ensures ConnTidy(q.conns[k], k, q.up, q.sender) {
      if k < |p.conns| {
        assert ConnTidy(p.conns[k], k, p.up, p.sender);
      }
    }
  }

  lemma TidySender(hash: Bytes -> nat, p: Pool, a: Action)
    requires Wired(p) && Tidy(p) && Enabled(p, a) && (a.WriteOk? || a.WriteFail? || a.AckOk? || a.DropPending?)
    ensures Tidy(Next(hash, p, a))
  {
    var k := p.sender.conn;
    assert ConnTidy(p.conns[k], k, p.up, p.sender);
    TidyConns(p, Next(hash, p, a), k);
  }

  lemma TidyNext(hash: Bytes -> nat, p: Pool, a: Action)
    requires Wired(p) && Tidy(p) && Enabled(p, a)
    ensures Tidy(Next(hash, p, a))
  {
    match a
    case Remove => TidyRemove(hash, p);
    case DialDone(addr) => TidyDial(hash, p, addr);
    case Lookup =>
      var c := p.log[p.sender.cmd];
      var k := if Hashable(c) then Route(hash, c, p.up) else |p.conns|;
      assert Hashable(c) ==> k in p.up;
      if k < |p.conns| {
        assert ConnTidy(p.conns[k], k, p.up, p.sender);
      }
      TidyConns(p, Next(hash, p, a), k);
    case AckNotDue => TidyQuiet(hash, p, a);
    case AckFail => TidyQuiet(hash, p, a);
    case Submit(_) => TidyConns(p, Next(hash, p, a), if Busy(p.sender).Some? then Busy(p.sender).value else |p.conns|);
    case Take => TidyConns(p, Next(hash, p, a), |p.conns|);
    case _ => TidySender(hash, p, a);
  }

  lemma TidyQuiet(hash: Bytes -> nat, p: Pool, a: Action)
    requires Wired(p) && Tidy(p) && Enabled(p, a) && (a.AckNotDue? || a.AckFail?)
    ensures Tidy(Next(hash, p, a))
  {
    var k := p.sender.conn;
    assert ConnTidy(p.conns[k], k, p.up, p.sender);
    TidyConns(p, Next(hash, p, a), k);
  }

  lemma RemoveKeepsSlots(hash: Bytes -> nat, p: Pool)
    requires Wired(p) && Tidy(p) && Enabled(p, Remove) && Wired(Next(hash, p, Remove))
    ensures Slots(Next(hash, p, Remove)) == Slots(p)
  {
    AddressesWithout(p.up, p.sender.conn, p.conns);
  }

  lemma MoveOver(a: multiset<Address>, b: multiset<Address>, x: multiset<Address>, r: multiset<Address>)
    ensures a + (b + x) + r == (a + x) + b + r
  {
  }

  lemma DialAddresses(up: seq<ConnId>, conns: seq<Conn>, c: Conn)
    requires forall i :: 0 <= i < |up| ==> up[i] < |conns|
    ensures Addresses(up + [|conns|], conns + [c]) == Addresses(up, conns) + multiset{c.addr}
  {
    AddressesKept(up, conns, conns + [c]);
    AddressesSnoc(up, |conns|, conns + [c]);
  }

  lemma DialKeepsSlots(hash: Bytes -> nat, p: Pool, addr: Address)
    requires Wired(p) && Enabled(p, DialDone(addr)) && Wired(Next(hash, p, DialDone(addr)))
    ensures Slots(Next(hash, p, DialDone(addr))) == Slots(p)
  {
    var r := if p.sender.Removed? then multiset{p.conns[p.sender.conn].addr} else multiset{};
    DialAddresses(p.up, p.conns, Conn(addr, [], [], None));
    MoveOver(Addresses(p.up, p.conns), p.dialing - multiset{addr}, multiset{addr}, r);
    assert p.dialing == (p.dialing - multiset{addr}) + multiset{addr};
  }

  lemma DropKeepsSlots(hash: Bytes -> nat, p: Pool)
    requires Wired(p) && Enabled(p, DropPending) && Wired(Next(hash, p, DropPending))
    ensures Slots(Next(hash, p, DropPending)) == Slots(p)
  {
    AddressesKept(p.up, p.conns, Next(hash, p, DropPending).conns);
  }

  lemma OtherKeepsSlots(hash: Bytes -> nat, p: Pool, a: Action)
    requires Wired(p) && Enabled(p, a) && Wired(Next(hash, p, a))
    requires !a.Remove? && !a.DialDone? && !a.DropPending?
    ensures Slots(Next(hash, p, a)) == Slots(p)
  {
    var q := Next(hash, p, a);
    assert q.up == p.up && q.dialing == p.dialing;
    assert if p.sender.Removed? then q.sender == p.sender else !q.sender.Removed?;
    assert forall k :: 0 <= k < |p.conns| ==> q.conns[k].addr == p.conns[k].addr;
    AddressesKept(p.up, p.conns, q.conns);
  }

  lemma SlotsNext(hash: Bytes -> nat, p: Pool, a: Action)
    requires Wired(p) && Tidy(p) && Enabled(p, a) && Wired(Next(hash, p, a))
    ensures Slots(Next(hash, p, a)) == Slots(p)
  {
    match a
    case Remove => RemoveKeepsSlots(hash, p);
    case DialDone(addr) => DialKeepsSlots(hash, p, addr);
    case DropPending => DropKeepsSlots(hash, p);
    case _ => OtherKeepsSlots(hash, p, a);
  }

  lemma WaitingTail(before: seq<CommandId>, after: seq<CommandId>)
    requires before != [] && after == before[1..] && Ascending(before)
    ensures Ascending(after) && forall i :: 0 <= i < |after| ==> after[i] == before[i + 1]
  {
  }

  /** A connection that another one's Write leaves alone, or that lost the command itself. */
  lemma WireOther(c: Conn, d: Conn, id: CommandId, after: seq<CommandId>, n: nat)
    requires WireOk(c, [id] + after, n) && d.wire == c.wire && d.pending == c.pending
    ensures WireOk(d, after, n)
  {
    var before := [id] + after;
    assert forall j :: 0 <= j < |after| ==> after[j] == before[j + 1];
  }

  /** One command leaves the line: it goes onto connection k, or gets lost there. */
  lemma LineShortens(id: CommandId, queue: seq<CommandId>, conns: seq<Conn>, k: nat, d: Conn, n: nat)
    requires Lined([id] + queue, conns, n) && k < |conns|
    requires var c := conns[k];
             || (d.wire == c.wire + [id] && d.pending == c.pending + [id])
             || (d.wire == c.wire && d.pending == c.pending)
    ensures Lined(queue, conns[k := d], n)
  {
    var waiting, now := [id] + queue, conns[k := d];
    WaitingTail(waiting, queue);
    assert waiting[0] == id;
    forall j | 0 <= j < |now| ensures WireOk(now[j], queue, n) {
      assert WireOk(conns[j], waiting, n);
      if j == k && d.wire != conns[k].wire {
        WireGrows(conns[k], d, id, queue, n);
      } else {
        WireOther(conns[j], now[j], id, queue, n);
      }
    }
  }

  /** What a step that writes leaves alone. */
  ghost predicate OnlyWrites(p: Pool, q: Pool, k: nat, conn: Conn) {
    && k < |p.conns| && q.conns == p.conns[k := conn]
    && q.queue == p.queue && q.acked == p.acked && q.dropped == p.dropped && q.log == p.log
  }

  lemma WriteOkParts(hash: Bytes -> nat, p: Pool) returns (conn: Conn)
    requires Wired(p) && Enabled(p, WriteOk)
    ensures OnlyWrites(p, Next(hash, p, WriteOk), p.sender.conn, conn)
    ensures Hand(p.sender) == [p.sender.cmd] && Hand(Next(hash, p, WriteOk).sender) == []
    ensures var c := p.conns[p.sender.conn];
            conn.wire == c.wire + [p.sender.cmd] && conn.pending == c.pending + [p.sender.cmd] && conn.lost == c.lost
  {
    var c, id := p.conns[p.sender.conn], p.sender.cmd;
    conn := c.(pending := c.pending + [id], wire := c.wire + [id]);
  }

  lemma WriteFailParts(hash: Bytes -> nat, p: Pool) returns (conn: Conn)
    requires Wired(p) && Enabled(p, WriteFail)
    ensures OnlyWrites(p, Next(hash, p, WriteFail), p.sender.conn, conn)
    ensures Hand(p.sender) == [p.sender.cmd] && Hand(Next(hash, p, WriteFail).sender) == []
    ensures var c := p.conns[p.sender.conn];
            conn.wire == c.wire && conn.pending == c.pending && conn.lost == Some(p.sender.cmd)
  {
    conn := p.conns[p.sender.conn].(lost := Some(p.sender.cmd));
  }

  lemma WriteOkKeepsOrder(hash: Bytes -> nat, p: Pool)
    requires Wired(p) && InOrder(p) && Enabled(p, WriteOk)
    ensures InOrder(Next(hash, p, WriteOk))
  {
    var conn := WriteOkParts(hash, p);
    LineShortens(p.sender.cmd, p.queue, p.conns, p.sender.conn, conn, |p.log|);
    assert [] + p.queue == p.queue;
  }

  lemma WriteFailKeepsOrder(hash: Bytes -> nat, p: Pool)
    requires Wired(p) && InOrder(p) && Enabled(p, WriteFail)
    ensures InOrder(Next(hash, p, WriteFail))
  {
    var conn := WriteFailParts(hash, p);
    LineShortens(p.sender.cmd, p.queue, p.conns, p.sender.conn, conn, |p.log|);
    assert [] + p.queue == p.queue;
  }

  lemma WireMore(c: Conn, before: seq<CommandId>, after: seq<CommandId>, n: nat)
    requires WireOk(c, before, n) && (after == before || after == before + [n])
    ensures WireOk(c, after, n + 1)
  {
    assert forall j :: 0 <= j < |before| ==> after[j] == before[j];
  }

  lemma AscendingSnoc(s: seq<CommandId>, n: nat)
    requires Ascending(s) && forall i :: 0 <= i < |s| ==> s[i] < n
    ensures Ascending(s + [n]) && forall i :: 0 <= i < |s + [n]| ==> (s + [n])[i] < n + 1
  {
  }

  lemma LineGrows(waiting: seq<CommandId>, conns: seq<Conn>, n: nat)
    requires Lined(waiting, conns, n)
    ensures Lined(waiting + [n], conns, n + 1) && Lined(waiting, conns, n + 1)
  {
    AscendingSnoc(waiting, n);
    forall j | 0 <= j < |conns| ensures WireOk(conns[j], waiting + [n], n + 1) && WireOk(conns[j], waiting, n + 1) {
      WireMore(conns[j], waiting, waiting + [n], n);
      WireMore(conns[j], waiting, waiting, n);
    }
  }

  lemma SubmitParts(hash: Bytes -> nat, p: Pool, cmd: Bytes)
    requires Wired(p) && Enabled(p, Submit(cmd))
    ensures var q, n := Next(hash, p, Submit(cmd)), |p.log|;
            && q.conns == p.conns && q.sender == p.sender && |q.log| == n + 1
            && (q.queue == p.queue || q.queue == p.queue + [n])
  {
  }

  lemma SubmitKeepsOrder(hash: Bytes -> nat, p: Pool, cmd: Bytes)
    requires Wired(p) && InOrder(p) && Enabled(p, Submit(cmd))
    ensures InOrder(Next(hash, p, Submit(cmd)))
  {
    var q, n, waiting := Next(hash, p, Submit(cmd)), |p.log|, Hand(p.sender) + p.queue;
    SubmitParts(hash, p, cmd);
    LineGrows(waiting, p.conns, n);
    ConcatAssoc(Hand(p.sender), p.queue, [n]);
    assert Hand(q.sender) + q.queue == waiting || Hand(q.sender) + q.queue == waiting + [n];
  }

  lemma OtherKeepsOrder(hash: Bytes -> nat, p: Pool, a: Action)
    requires Wired(p) && InOrder(p) && Enabled(p, a) && !a.WriteOk? && !a.WriteFail? && !a.Submit?
    ensures InOrder(Next(hash, p, a))
  {
    var q := Next(hash, p, a);
    var waiting := Hand(p.sender) + p.queue;
    assert Hand(q.sender) + q.queue == waiting;
    forall j | 0 <= j < |q.conns| ensures WireOk(q.conns[j], waiting, |q.log|) {
      if j < |p.conns| {
        WireShrinks(p.conns[j], waiting, |p.log|);
      }
    }
  }

  lemma WireShrinks(c: Conn, waiting: seq<CommandId>, n: nat)
    requires WireOk(c, waiting, n)
    ensures WireOk(c.(pending := []), waiting, n)
  {
  }

  lemma OrderNext(hash: Bytes -> nat, p: Pool, a: Action)
    requires Wired(p) && InOrder(p) && Enabled(p, a)
    ensures InOrder(Next(hash, p, a))
  {
    if a.WriteOk? {
      WriteOkKeepsOrder(hash, p);
    } else if a.WriteFail? {
      WriteFailKeepsOrder(hash, p);
    } else if a.Submit? {
      SubmitKeepsOrder(hash, p, a.cmd);
    } else {
      OtherKeepsOrder(hash, p, a);
    }
  }

  lemma WireGrows(c: Conn, d: Conn, id: CommandId, after: seq<CommandId>, n: nat)
    requires WireOk(c, [id] + after, n) && id < n && Ascending([id] + after)
    requires d.wire == c.wire + [id] && d.pending == c.pending + [id]
    ensures WireOk(d, after, n)
  {
    var before := [id] + after;
    assert forall j :: 0 <= j < |after| ==> after[j] == before[j + 1];
    assert before[0] == id;
  }

  lemma WaitingKnown(p: Pool)
    requires InOrder(p)
    ensures forall i :: 0 <= i < |p.queue| ==> p.queue[i] < |p.log|
  {
    var hand := Hand(p.sender);
    assert forall i :: 0 <= i < |p.queue| ==> p.queue[i] == (hand + p.queue)[|hand| + i];
  }

  lemma QueueNext(hash: Bytes -> nat, p: Pool, a: Action)
    requires Wired(p) && Enabled(p, a) && |p.queue| <= MAX_QUEUE
    ensures |Next(hash, p, a).queue| <= MAX_QUEUE
  {
  }

  lemma InvNext(hash: Bytes -> nat, p: Pool, a: Action, slots: multiset<Address>)
    requires Inv(p, slots) && Enabled(p, a)
    ensures Inv(Next(hash, p, a), slots)
  {
    ConservedNext(hash, p, a);
    LogNext(hash, p, a);
    WaitingKnown(p);
    WiredNext(hash, p, a);
    TidyNext(hash, p, a);
    QueueNext(hash, p, a);
    SlotsNext(hash, p, a);
    OrderNext(hash, p, a);
  }

  // ---- Runs --------------------------------------------------------------------------------------------

  /** The actions can be taken one after the other. */
  ghost predicate Legal(hash: Bytes -> nat, p: Pool, actions: seq<Action>)
    decreases |actions|
  {
    actions == []
    || (Wired(p) && Enabled(p, actions[0]) && Legal(hash, Next(hash, p, actions[0]), actions[1..]))
  }

  function After(hash: Bytes -> nat, p: Pool, actions: seq<Action>): Pool
    requires Legal(hash, p, actions)
    decreases |actions|
  {
    if actions == [] then p else After(hash, Next(hash, p, actions[0]), actions[1..])
  }

  lemma {:induction false} InvAlways(hash: Bytes -> nat, p: Pool, actions: seq<Action>, slots: multiset<Address>)
    requires Inv(p, slots) && Legal(hash, p, actions)
    ensures Inv(After(hash, p, actions), slots)
    decreases |actions|
  {
    if actions != [] {
      InvNext(hash, p, actions[0], slots);
      InvAlways(hash, Next(hash, p, actions[0]), actions[1..], slots);
    }
  }

  /**
   In every reachable state every submitted command is in exactly one place: the queue, the sender's hand,
   the pending batch of one connection, among the acknowledged, among the dropped, or it is the one command
   that its connection's failing Write lost. Live connections and dials in progress stay what dialAll began
   with, host by host. Every connection carries its commands in the order they were put.
   */
  lemma {:induction false} Conservation(hash: Bytes -> nat, hosts: seq<Address>, maxConns: nat, actions: seq<Action>)
    requires Legal(hash, Start(Dials(hosts, maxConns)), actions)
    ensures var p := After(hash, Start(Dials(hosts, maxConns)), actions);
            && Inv(p, Dials(hosts, maxConns))
            && forall i: nat :: Everywhere(p)[i] == if i < |p.log| then 1 else 0
  {
    var slots := Dials(hosts, maxConns);
    var p := After(hash, Start(slots), actions);
    assert Everywhere(Start(slots)) == multiset{};
    InvAlways(hash, Start(slots), actions, slots);
    forall i: nat ensures FirstIds(|p.log|)[i] == if i < |p.log| then 1 else 0 {
      IdsOnce(|p.log|, i);
    }
  }

  /** How many Writes have failed in a run. */
  function WriteFailures(actions: seq<Action>): nat {
    if actions == [] then 0 else (if actions[0].WriteFail? then 1 else 0) + WriteFailures(actions[1..])
  }

  lemma LostOther(hash: Bytes -> nat, p: Pool, a: Action)
    requires Wired(p) && Enabled(p, a) && !a.WriteFail?
    ensures LostOf(Next(hash, p, a).conns) == LostOf(p.conns)
  {
    var q := Next(hash, p, a);
    match a
    case WriteOk => PendingGrows(p.conns, p.sender.conn, q.conns[p.sender.conn], p.sender.cmd);
    case AckOk => PendingClears(p.conns, p.sender.conn, q.conns[p.sender.conn]);
    case DropPending => PendingClears(p.conns, p.sender.conn, q.conns[p.sender.conn]);
    case DialDone(addr) =>
      PendingSnoc(p.conns, Conn(addr, [], [], None));
      assert LostOf(p.conns) + multiset{} == LostOf(p.conns);
    case _ => assert q.conns == p.conns;
  }

  lemma LostMore(hash: Bytes -> nat, p: Pool)
    requires Wired(p) && Tidy(p) && Enabled(p, WriteFail)
    ensures |LostOf(Next(hash, p, WriteFail).conns)| == |LostOf(p.conns)| + 1
  {
    var k, c := p.sender.conn, p.sender.cmd;
    var conn := WriteFailParts(hash, p);
    assert ConnTidy(p.conns[k], k, p.up, p.sender);
    LostGrows(p.conns, k, conn, c);
    assert |LostOf(p.conns) + multiset{c}| == |LostOf(p.conns)| + 1;
  }

  lemma LostNext(hash: Bytes -> nat, p: Pool, a: Action)
    requires Wired(p) && Tidy(p) && Enabled(p, a)
    ensures |LostOf(Next(hash, p, a).conns)| == |LostOf(p.conns)| + if a.WriteFail? then 1 else 0
  {
    if a.WriteFail? {
      LostMore(hash, p);
    } else {
      LostOther(hash, p, a);
    }
  }

  /** Commands are lost without a report by failing Writes only, one each, never two on one connection. */
  lemma {:induction false} LostOnePerFailure(hash: Bytes -> nat, p: Pool, actions: seq<Action>,
                                              slots: multiset<Address>)
    requires Inv(p, slots) && Legal(hash, p, actions)
    ensures |LostOf(After(hash, p, actions).conns)| == |LostOf(p.conns)| + WriteFailures(actions)
    decreases |actions|
  {
    if actions != [] {
      LostNext(hash, p, actions[0]);
      InvNext(hash, p, actions[0], slots);
      LostOnePerFailure(hash, Next(hash, p, actions[0]), actions[1..], slots);
    }
  }

  // ---- Series stick to connections ---------------------------------------------------------------------

  predicate KeepsUp(a: Action) { !a.Remove? && !a.DialDone? }

  /** What the connection was given since base is what the series of the commands point to it. */
  ghost predicate StickyConn(hash: Bytes -> nat, wire0: seq<CommandId>, wire: seq<CommandId>, k: ConnId,
                             log: seq<Bytes>, up: seq<ConnId>) {
    forall c :: c in wire && c !in wire0 ==>
      c < |log| && Hashable(log[c]) && up != [] && Route(hash, log[c], up) == k
  }

  /** Everything written since base went where the series of the command points, and so will what is routed. */
  ghost predicate Sticky(hash: Bytes -> nat, base: Pool, p: Pool) {
    && Wired(p) && p.up == base.up && |p.conns| == |base.conns| && base.log <= p.log
    && (forall k :: 0 <= k < |p.conns| ==>
          StickyConn(hash, base.conns[k].wire, p.conns[k].wire, k, p.log, p.up))
    && (p.sender.Routed? ==> p.up != [] && Route(hash, p.log[p.sender.cmd], p.up) == p.sender.conn)
  }

  lemma StickyNext(hash: Bytes -> nat, base: Pool, p: Pool, a: Action)
    requires Sticky(hash, base, p) && Tidy(p) && Enabled(p, a) && KeepsUp(a)
    requires forall i :: 0 <= i < |p.queue| ==> p.queue[i] < |p.log|
    ensures Sticky(hash, base, Next(hash, p, a))
  {
    WiredNext(hash, p, a);
    var q := Next(hash, p, a);
    forall k | 0 <= k < |q.conns|
      ensures StickyConn(hash, base.conns[k].wire, q.conns[k].wire, k, q.log, q.up)
    {
      StickyWire(hash, base.conns[k].wire, p.conns[k].wire, k, p.log, q.log, p.up);
      if a.WriteOk? && k == p.sender.conn {
        StickyWrite(hash, base.conns[k].wire, p.conns[k].wire, k, p.log, p.up, p.sender.cmd);
      } else {
        assert q.conns[k].wire == p.conns[k].wire;
      }
    }
  }

  lemma StickyWire(hash: Bytes -> nat, wire0: seq<CommandId>, wire: seq<CommandId>, k: ConnId,
                   log: seq<Bytes>, log': seq<Bytes>, up: seq<ConnId>)
    requires StickyConn(hash, wire0, wire, k, log, up) && log <= log'
    ensures StickyConn(hash, wire0, wire, k, log', up)
  {
  }

  lemma StickyWrite(hash: Bytes -> nat, wire0: seq<CommandId>, wire: seq<CommandId>, k: ConnId,
                    log: seq<Bytes>, up: seq<ConnId>, id: CommandId)
    requires StickyConn(hash, wire0, wire, k, log, up)
    requires id < |log| && Hashable(log[id]) && up != [] && Route(hash, log[id], up) == k
    ensures StickyConn(hash, wire0, wire + [id], k, log, up)
  {
    assert forall c :: c in wire + [id] ==> c in wire || c == id;
  }

  ghost predicate Going(hash: Bytes -> nat, base: Pool, p: Pool, slots: multiset<Address>) {
    Sticky(hash, base, p) && Inv(p, slots)
  }

  lemma StickyStep(hash: Bytes -> nat, base: Pool, p: Pool, a: Action, slots: multiset<Address>)
    requires Going(hash, base, p, slots) && Enabled(p, a) && KeepsUp(a)
    ensures Going(hash, base, Next(hash, p, a), slots)
  {
    assert Sticky(hash, base, Next(hash, p, a)) by {
      WaitingKnown(p);
      StickyNext(hash, base, p, a);
    }
    InvNext(hash, p, a, slots);
  }

  /** What every allowed step keeps holds after every run of allowed steps. */
  lemma {:induction false} RunKeeps(hash: Bytes -> nat, p: Pool, actions: seq<Action>,
                                     good: Pool -> bool, allowed: Action -> bool)
    requires good(p) && Legal(hash, p, actions) && forall i :: 0 <= i < |actions| ==> allowed(actions[i])
    requires forall q, a :: good(q) && allowed(a) && Wired(q) && Enabled(q, a) ==> good(Next(hash, q, a))
    ensures good(After(hash, p, actions))
    decreases |actions|
  {
    if actions != [] {
      RunKeeps(hash, Next(hash, p, actions[0]), actions[1..], good, allowed);
    }
  }

  /** A command written on connection k since base, at position i of its stream. */
  ghost predicate WrittenSince(base: Pool, q: Pool, k: ConnId, i: nat) {
    && k < |q.conns| == |base.conns| && i < |q.conns[k].wire|
    && q.conns[k].wire[i] !in base.conns[k].wire
    && q.conns[k].wire[i] < |q.log| && Hashable(q.log[q.conns[k].wire[i]])
  }

  /**
   While the list of connections does not change, two commands of one series are written to one connection,
   and there the one put first comes first.
   */
  lemma {:induction false} SeriesStayTogether(hash: Bytes -> nat, p: Pool, actions: seq<Action>,
                                              slots: multiset<Address>, q: Pool, k: ConnId, i: nat, m: ConnId, j: nat)
    requires Inv(p, slots) && Legal(hash, p, actions) && !p.sender.Routed? && q == After(hash, p, actions)
    requires forall x :: 0 <= x < |actions| ==> KeepsUp(actions[x])
    requires WrittenSince(p, q, k, i) && WrittenSince(p, q, m, j)
    requires SeriesBytes(q.log[q.conns[k].wire[i]]) == SeriesBytes(q.log[q.conns[m].wire[j]])
    ensures k == m && (q.conns[k].wire[i] < q.conns[m].wire[j] <==> i < j)
  {
    var good := (r: Pool) => Going(hash, p, r, slots);
    forall r, a | good(r) && KeepsUp(a) && Wired(r) && Enabled(r, a) ensures good(Next(hash, r, a)) {
      StickyStep(hash, p, r, a, slots);
    }
    RunKeeps(hash, p, actions, good, a => KeepsUp(a));
    StuckTogether(hash, p, q, k, i, m, j);
  }

  lemma SameConn(hash: Bytes -> nat, p: Pool, q: Pool, k: ConnId, i: nat)
    requires Sticky(hash, p, q) && WrittenSince(p, q, k, i)
    ensures q.up != [] && Route(hash, q.log[q.conns[k].wire[i]], q.up) == k
  {
    assert StickyConn(hash, p.conns[k].wire, q.conns[k].wire, k, q.log, q.up);
    assert q.conns[k].wire[i] in q.conns[k].wire;
  }

  lemma WireAscends(q: Pool, k: ConnId, i: nat, j: nat)
    requires InOrder(q) && k < |q.conns| && i < |q.conns[k].wire| && j < |q.conns[k].wire|
    ensures q.conns[k].wire[i] < q.conns[k].wire[j] <==> i < j
  {
    assert WireOk(q.conns[k], Hand(q.sender) + q.queue, |q.log|);
  }

  lemma StuckTogether(hash: Bytes -> nat, p: Pool, q: Pool, k: ConnId, i: nat, m: ConnId, j: nat)
    requires Sticky(hash, p, q) && InOrder(q)
    requires WrittenSince(p, q, k, i) && WrittenSince(p, q, m, j)
    requires SeriesBytes(q.log[q.conns[k].wire[i]]) == SeriesBytes(q.log[q.conns[m].wire[j]])
    ensures k == m && (q.conns[k].wire[i] < q.conns[m].wire[j] <==> i < j)
  {
    SameConn(hash, p, q, k, i);
    SameConn(hash, p, q, m, j);
    WireAscends(q, k, i, j);
  }

  // ---- What goes wrong ---------------------------------------------------------------------------------

  /** The sender goes down exactly when a command whose series cannot be hashed meets a live connection. */
  lemma UnhashablePanics(hash: Bytes -> nat, p: Pool)
    requires Wired(p) && Enabled(p, Lookup)
    ensures Next(hash, p, Lookup).sender.Panicked? <==> !Hashable(p.log[p.sender.cmd])
  {
  }

  /** All commands so far can be hashed, and the sender is up. */
  ghost predicate Hashed(p: Pool) {
    !p.sender.Panicked? && forall i :: 0 <= i < |p.log| ==> Hashable(p.log[i])
  }

  predicate SubmitsHashable(a: Action) { a.Submit? ==> Hashable(a.cmd) }

  lemma HashedNext(hash: Bytes -> nat, p: Pool, a: Action)
    requires Wired(p) && Hashed(p) && Enabled(p, a) && SubmitsHashable(a)
    ensures Hashed(Next(hash, p, a))
  {
    if a.Lookup? {
      UnhashablePanics(hash, p);
    }
  }

  /** As long as every command can be hashed, no run takes the sender down. */
  lemma {:induction false} HashableNeverPanics(hash: Bytes -> nat, slots: multiset<Address>, actions: seq<Action>)
    requires Legal(hash, Start(slots), actions)
    requires forall i :: 0 <= i < |actions| ==> SubmitsHashable(actions[i])
    ensures !After(hash, Start(slots), actions).sender.Panicked?
  {
    var good := (p: Pool) => Hashed(p);
    forall p, a | good(p) && SubmitsHashable(a) && Wired(p) && Enabled(p, a) ensures good(Next(hash, p, a)) {
      HashedNext(hash, p, a);
    }
    RunKeeps(hash, Start(slots), actions, good, a => SubmitsHashable(a));
  }

  /** One more action at the end of a run. */
  lemma {:induction false} RunSnoc(hash: Bytes -> nat, p: Pool, actions: seq<Action>, a: Action)
    requires Legal(hash, p, actions)
    requires Wired(After(hash, p, actions)) && Enabled(After(hash, p, actions), a)
    ensures Legal(hash, p, actions + [a])
    ensures After(hash, p, actions + [a]) == Next(hash, After(hash, p, actions), a)
    decreases |actions|
  {
    if actions == [] {
      assert [] + [a] == [a] && [a][1..] == [];
    } else {
      assert (actions + [a])[1..] == actions[1..] + [a];
      RunSnoc(hash, Next(hash, p, actions[0]), actions[1..], a);
    }
  }

  /** The states of a run that loses a command: one connection, one command, whose Write fails. */
  function Losing(addr: Address, cmd: Bytes, n: nat): Pool
    requires n <= 7
  {
    var conn := Conn(addr, [], [], if n < 5 then None else Some(0));
    Pool(if n < 2 then [] else [cmd], if n == 2 then [0] else [],
         match n {
           case 3 => Holding(0) case 4 => Routed(0, 0) case 5 => Failing(0) case 6 => Removed(0) case _ => Idle
         },
         if 1 <= n <= 5 then [0] else [], if n == 0 then [] else [conn],
         if n == 0 || n == 7 then multiset{addr} else multiset{}, [], [])
  }

  function LosingAction(addr: Address, cmd: Bytes, n: nat): Action {
    match n
    case 0 => DialDone(addr)
    case 1 => Submit(cmd)
    case 2 => Take
    case 3 => Lookup
    case 4 => WriteFail
    case 5 => Remove
    case _ => DropPending
  }

  ghost predicate LosesAt(hash: Bytes -> nat, addr: Address, cmd: Bytes, n: nat)
    requires n < 7
  {
    var p, a := Losing(addr, cmd, n), LosingAction(addr, cmd, n);
    Wired(p) && Enabled(p, a) && Next(hash, p, a) == Losing(addr, cmd, n + 1)
  }

  lemma LosingStart(hash: Bytes -> nat, addr: Address, cmd: Bytes, n: nat)
    requires IsCommand(cmd) && n <= 2
    ensures LosesAt(hash, addr, cmd, n)
  {
  }

  lemma OnlyRoute(hash: Bytes -> nat, cmd: Bytes)
    requires Hashable(cmd)
    ensures Route(hash, cmd, [0]) == 0
  {
  }

  lemma LosingLookup(hash: Bytes -> nat, addr: Address, cmd: Bytes)
    requires Hashable(cmd)
    ensures LosesAt(hash, addr, cmd, 3)
  {
    OnlyRoute(hash, cmd);
  }

  lemma LosingWrite(hash: Bytes -> nat, addr: Address, cmd: Bytes)
    requires Hashable(cmd)
    ensures LosesAt(hash, addr, cmd, 4)
  {
    var p := Losing(addr, cmd, 4);
    assert Wired(p) && p.conns[0 := p.conns[0].(lost := Some(0))] == [Conn(addr, [], [], Some(0))];
  }

  lemma LosingEnd(hash: Bytes -> nat, addr: Address, cmd: Bytes, n: nat)
    requires IsCommand(cmd) && 5 <= n <= 6
    ensures LosesAt(hash, addr, cmd, n)
  {
    assert Without([0], 0) == [];
  }

  lemma LosingStep(hash: Bytes -> nat, addr: Address, cmd: Bytes, n: nat)
    requires IsCommand(cmd) && n < 7 && (n > 2 ==> Hashable(cmd))
    ensures LosesAt(hash, addr, cmd, n)
  {
    if n <= 2 {
      LosingStart(hash, addr, cmd, n);
    } else if n == 3 {
      LosingLookup(hash, addr, cmd);
    } else if n == 4 {
      LosingWrite(hash, addr, cmd);
    } else {
      LosingEnd(hash, addr, cmd, n);
    }
  }

  /** The run has led to its n-th state. */
  ghost predicate LosingSoFar(hash: Bytes -> nat, addr: Address, cmd: Bytes, n: nat, actions: seq<Action>)
    requires n <= 7
  {
    && Legal(hash, Start(multiset{addr}), actions)
    && After(hash, Start(multiset{addr}), actions) == Losing(addr, cmd, n)
  }

  lemma LosingMore(hash: Bytes -> nat, addr: Address, cmd: Bytes, n: nat, actions: seq<Action>)
    requires n < 7 && LosingSoFar(hash, addr, cmd, n, actions) && LosesAt(hash, addr, cmd, n)
    ensures LosingSoFar(hash, addr, cmd, n + 1, actions + [LosingAction(addr, cmd, n)])
  {
    RunSnoc(hash, Start(multiset{addr}), actions, LosingAction(addr, cmd, n));
  }

  lemma {:induction false} LosingRun(hash: Bytes -> nat, addr: Address, cmd: Bytes, n: nat)
    returns (actions: seq<Action>)
    requires IsCommand(cmd) && n <= 7 && (n > 3 ==> Hashable(cmd))
    ensures LosingSoFar(hash, addr, cmd, n, actions)
  {
    if n == 0 {
      actions := [];
    } else {
      actions := LosingRun(hash, addr, cmd, n - 1);
      LosingStep(hash, addr, cmd, n - 1);
      LosingMore(hash, addr, cmd, n - 1, actions);
      actions := actions + [LosingAction(addr, cmd, n - 1)];
    }
  }

  /**
   At the end of that run the sender is idle again, and the command is nowhere but lost: not queued, not pending,
   not acknowledged and not reported as dropped.
   */
  lemma FailingWriteLosesACommand(hash: Bytes -> nat, addr: Address, cmd: Bytes)
    returns (actions: seq<Action>, q: Pool)
    requires Hashable(cmd)
    ensures Legal(hash, Start(multiset{addr}), actions) && q == After(hash, Start(multiset{addr}), actions)
    ensures q.log == [cmd] && q.sender == Idle && q.queue == [] && q.acked == [] && q.dropped == []
    ensures PendingOf(q.conns) == multiset{} && LostOf(q.conns) == multiset{0}
  {
    actions := LosingRun(hash, addr, cmd, 7);
    q := Losing(addr, cmd, 7);
    assert q.conns == [Conn(addr, [], [], Some(0))] && q.conns[1..] == [];
  }

  /** One connection, one command: when it is looked up, the sender goes down if and only if it cannot be hashed. */
  lemma OnePutPanicsIff(hash: Bytes -> nat, addr: Address, cmd: Bytes) returns (actions: seq<Action>)
    requires IsCommand(cmd)
    ensures Legal(hash, Start(multiset{addr}), actions)
    ensures After(hash, Start(multiset{addr}), actions).sender.Panicked? <==> !Hashable(cmd)
  {
    var held := LosingRun(hash, addr, cmd, 3);
    UnhashablePanics(hash, Losing(addr, cmd, 3));
    RunSnoc(hash, Start(multiset{addr}), held, Lookup);
    actions := held + [Lookup];
  }
}
