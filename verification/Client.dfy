/**
 The client's connection pool as a protocol of atomic steps: a bounded queue, one sender, several connections
 with batched acknowledgements, drops on failure, and redials. Network outcomes are the choice of step.
 */
module Client {
  import opened Bytes
  import opened Commands

  const MAX_QUEUE: nat := 100000

  type CommandId = nat
  type ConnId = nat
  type Address = nat

  /** A connection ever made: what it wrote, what of that awaits an acknowledgement, what its failing Write lost. */
  datatype Conn = Conn(addr: Address, pending: seq<CommandId>, wire: seq<CommandId>, lost: Option<CommandId>)

  /** What the sender is doing. */
  datatype Sender =
    | Idle
    | Holding(cmd: CommandId)                // taken from the queue
    | Routed(cmd: CommandId, conn: ConnId)   // a connection was looked up
    | Written(conn: ConnId)                  // written, the batch may be acknowledged now
    | Failing(conn: ConnId)                  // a Write or a version request failed
    | Removed(conn: ConnId)                  // the connection is out of the list, its commands not yet dropped
    | Panicked(cmd: CommandId)               // hashing a command without tags took the program down

  datatype Pool = Pool(
    log: seq<Bytes>,             // every command ever submitted; its index is its id
    queue: seq<CommandId>,
    sender: Sender,
    up: seq<ConnId>,
    conns: seq<Conn>,
    dialing: multiset<Address>,
    acked: seq<CommandId>,
    dropped: seq<CommandId>)     // reported to Drop

  datatype Action =
    | Submit(cmd: Bytes)
    | Take
    | Lookup
    | WriteOk
    | WriteFail
    | AckNotDue
    | AckOk
    | AckFail
    | Remove
    | DropPending
    | DialDone(addr: Address)

  /** Anything that Point.put may build: what comes after "put " can be cut out. */
  predicate IsCommand(cmd: Bytes) { |cmd| > |PUT| }

  /** A put command with a tag: the only kind whose series can be hashed. */
  predicate Hashable(cmd: Bytes) {
    IsCommand(cmd) && SeriesBytes(cmd).Some?
  }

  /** The connection a command goes to. The hash is foreign; it sees nothing but the series bytes. */
  function Route(hash: Bytes -> nat, cmd: Bytes, up: seq<ConnId>): ConnId
    requires Hashable(cmd) && up != []
  {
    up[hash(SeriesBytes(cmd).value) % |up|]
  }

  /** The pool is wired up: ids and connections that are mentioned exist. */
  ghost predicate Wired(p: Pool) {
    && (forall i :: 0 <= i < |p.log| ==> IsCommand(p.log[i]))
    && (forall i :: 0 <= i < |p.up| ==> p.up[i] < |p.conns|)
    && match p.sender
       case Idle => true
       case Holding(c) => c < |p.log|
       case Routed(c, k) => c < |p.log| && k < |p.conns| && Hashable(p.log[c])
       case Written(k) => k < |p.conns|
       case Failing(k) => k < |p.conns|
       case Removed(k) => k < |p.conns|
       case Panicked(c) => c < |p.log| && !Hashable(p.log[c])
  }

  /** After a panic nothing happens any more. */
  predicate Enabled(p: Pool, a: Action) {
    !p.sender.Panicked? &&
    match a
    case Submit(cmd) => IsCommand(cmd)
    case Take => p.sender == Idle && p.queue != []
    case Lookup => p.sender.Holding? && p.up != []
    case WriteOk => p.sender.Routed?
    case WriteFail => p.sender.Routed?
    case AckNotDue => p.sender.Written?
    case AckOk => p.sender.Written?
    case AckFail => p.sender.Written?
    case Remove => p.sender.Failing?
    case DropPending => p.sender.Removed?
    case DialDone(addr) => addr in p.dialing
  }

  function Without(list: seq<ConnId>, k: ConnId): seq<ConnId> {
    if list == [] then []
    else if list[0] == k then Without(list[1..], k)
    else [list[0]] + Without(list[1..], k)
  }

  function Next(hash: Bytes -> nat, p: Pool, a: Action): Pool
    requires Wired(p) && Enabled(p, a)
  {
    match a
    case Submit(cmd) =>
      if |p.queue| < MAX_QUEUE then p.(log := p.log + [cmd], queue := p.queue + [|p.log|])
      else p.(log := p.log + [cmd], dropped := p.dropped + [|p.log|])
    case Take => p.(sender := Holding(p.queue[0]), queue := p.queue[1..])
    case Lookup =>
      var c := p.sender.cmd;
      p.(sender := if Hashable(p.log[c]) then Routed(c, Route(hash, p.log[c], p.up)) else Panicked(c))
    case WriteOk =>
      var c, k := p.sender.cmd, p.sender.conn;
      p.(sender := Written(k),
         conns := p.conns[k := p.conns[k].(pending := p.conns[k].pending + [c], wire := p.conns[k].wire + [c])])
    case WriteFail =>
      var c, k := p.sender.cmd, p.sender.conn;
      p.(sender := Failing(k), conns := p.conns[k := p.conns[k].(lost := Some(c))])
    case AckNotDue => p.(sender := Idle)
    case AckOk =>
      var k := p.sender.conn;
      p.(sender := Idle, acked := p.acked + p.conns[k].pending,
         conns := p.conns[k := p.conns[k].(pending := [])])
    case AckFail => p.(sender := Failing(p.sender.conn))
    case Remove => p.(sender := Removed(p.sender.conn), up := Without(p.up, p.sender.conn))
    case DropPending =>
      var k := p.sender.conn;
      p.(sender := Idle, dropped := p.dropped + p.conns[k].pending,
         conns := p.conns[k := p.conns[k].(pending := [])],
         dialing := p.dialing + multiset{p.conns[k].addr})
    case DialDone(addr) =>
      p.(dialing := p.dialing - multiset{addr}, up := p.up + [|p.conns|],
         conns := p.conns + [Conn(addr, [], [], None)])
  }

  // ---- The object --------------------------------------------------------------------------------------

  /** The client: every method is one atomic step of some goroutine. */
  class Client {
    var log: seq<Bytes>
    var queue: seq<CommandId>
    var sender: Sender
    var up: seq<ConnId>
    var conns: seq<Conn>
    var dialing: multiset<Address>
    var acked: seq<CommandId>
    var dropped: seq<CommandId>
    const hash: Bytes -> nat

    function State(): Pool
      reads this
    {
      Pool(log, queue, sender, up, conns, dialing, acked, dropped)
    }

    /** dialAll: one dial per host and allowed connection. */
    constructor (hash: Bytes -> nat, hosts: seq<Address>, maxConnsPerHost: nat)
      ensures this.hash == hash && State() == Start(Dials(hosts, maxConnsPerHost))
    {
      this.hash := hash;
      log, queue, sender, up, conns, acked, dropped := [], [], Idle, [], [], [], [];
      dialing := multiset{};
      new;
      for i := 0 to |hosts|
        invariant this.hash == hash && State() == Start(Dials(hosts[..i], maxConnsPerHost))
      {
        assert hosts[..i + 1][..i] == hosts[..i];
        DialHost(hosts[i], maxConnsPerHost);
      }
      assert hosts[..|hosts|] == hosts;
    }

    method DialHost(host: Address, maxConnsPerHost: nat)
      modifies this`dialing
      ensures dialing == old(dialing) + Times(host, maxConnsPerHost)
    {
      for j := 0 to maxConnsPerHost
        invariant dialing == old(dialing) + Times(host, j)
      {
        dialing := dialing + multiset{host};
      }
    }

    method Send(cmd: Bytes)
      requires Wired(State()) && Enabled(State(), Submit(cmd))
      modifies this
      ensures State() == Next(hash, old(State()), Submit(cmd))
    {
      var id := |log|;
      log := log + [cmd];
      if |queue| < MAX_QUEUE {
        queue := queue + [id];
      } else {
        dropped := dropped + [id];
      }
    }

    method TakeCommand()
      requires Wired(State()) && Enabled(State(), Take)
      modifies this
      ensures State() == Next(hash, old(State()), Take)
    {
      sender := Holding(queue[0]);
      queue := queue[1..];
    }

    method LookupConn()
      requires Wired(State()) && Enabled(State(), Lookup)
      modifies this
      ensures State() == Next(hash, old(State()), Lookup)
    {
      var series := SeriesBytes(log[sender.cmd]);
      if series.None? {
        sender := Panicked(sender.cmd);
        return;
      }
      sender := Routed(sender.cmd, up[hash(series.value) % |up|]);
    }

    /** Conn.put: keeps a copy of what was written until it is acknowledged. */
    method PutOnConn(ok: bool)
      requires Wired(State()) && sender.Routed?
      modifies this
      ensures State() == Next(hash, old(State()), if ok then WriteOk else WriteFail)
    {
      var c, k := sender.cmd, sender.conn;
      var conn := conns[k];
      if !ok {
        conns := conns[k := conn.(lost := Some(c))];
        sender := Failing(k);
        return;
      }
      conns := conns[k := Conn(conn.addr, conn.pending + [c], conn.wire + [c], conn.lost)];
      sender := Written(k);
    }

    /** Conn.ack: nothing before the interval has passed, else a version request acknowledges the batch. */
    method AckConn(due: bool, ok: bool)
      requires Wired(State()) && sender.Written?
      modifies this
      ensures State() == Next(hash, old(State()), if !due then AckNotDue else if ok then AckOk else AckFail)
    {
      var k := sender.conn;
      if !due {
        sender := Idle;
        return;
      }
      if !ok {
        sender := Failing(k);
        return;
      }
      acked := acked + conns[k].pending;
      conns := conns[k := conns[k].(pending := [])];
      sender := Idle;
    }

    /** The first half of error: takes the connection out of the list. */
    method RemoveConn()
      requires Wired(State()) && sender.Failing?
      modifies this
      ensures State() == Next(hash, old(State()), Remove)
    {
      var tmp: seq<ConnId> := [];
      var i := 0;
      while i < |up|
        invariant 0 <= i <= |up| && State() == old(State())
        invariant tmp + Without(up[i..], sender.conn) == Without(up, sender.conn)
      {
        assert up[i..][1..] == up[i + 1..];
        if up[i] != sender.conn {
          tmp := tmp + [up[i]];
        }
        i := i + 1;
      }
      up := tmp;
      sender := Removed(sender.conn);
    }

    /** The second half of error: reports what was not acknowledged, and dials the address again. */
    method DropAndRedial()
      requires Wired(State()) && sender.Removed?
      modifies this
      ensures State() == Next(hash, old(State()), DropPending)
    {
      var k := sender.conn;
      dropped := dropped + conns[k].pending;
      dialing := dialing + multiset{conns[k].addr};
      conns := conns[k := conns[k].(pending := [])];
      sender := Idle;
    }

    method FinishDial(addr: Address)
      requires Wired(State()) && Enabled(State(), DialDone(addr))
      modifies this
      ensures State() == Next(hash, old(State()), DialDone(addr))
    {
      dialing := dialing - multiset{addr};
      up := up + [|conns|];
      conns := conns + [Conn(addr, [], [], None)];
    }
  }

  function Start(dialing: multiset<Address>): Pool {
    Pool([], [], Idle, [], [], dialing, [], [])
  }

  function Times(addr: Address, n: nat): multiset<Address> {
    multiset{}[addr := n]
  }

  function Dials(hosts: seq<Address>, maxConnsPerHost: nat): multiset<Address> {
    if hosts == [] then multiset{}
    else Dials(hosts[..|hosts| - 1], maxConnsPerHost) + Times(hosts[|hosts| - 1], maxConnsPerHost)
  }
}
