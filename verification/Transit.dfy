/** Whole runs of Put, to the other end of a connection: what the aggregator decodes of what the pool wrote. */
module Transit {
  import opened Bytes
  import opened Collections
  import opened Points
  import opened Decimal
  import opened Codec
  import opened RoundTrip
  import opened Commands
  import opened Wire
  import opened EndToEnd
  import Interpolation
  import RepeatSeries
  import Repeat
  import Client
  import PoolLaws
  import ClientPut
  import Delivery

  type Pool = Client.Pool
  type ConnId = Client.ConnId
  type CommandId = Client.CommandId
  type Action = Client.Action

  // ---- Only points that were put are sent ---------------------------------------------------------------

  lemma {:induction false} SampleOfOne(ds: seq<Datum>, s: Bytes, q: Interpolation.Sample) returns (i: nat)
    requires q in Repeat.OfSeries(ds, s)
    ensures i < |ds| && ds[i].Series() == s && Repeat.SampleOf(ds[i]) == q
  {
    var last := |ds| - 1;
    if ds[last].Series() == s && Repeat.SampleOf(ds[last]) == q {
      i := last;
    } else {
      i := SampleOfOne(ds[..last], s, q);
    }
  }

  lemma {:induction false} EveryPointIsASample(ds: seq<Datum>, i: nat)
    requires i < |ds|
    ensures Repeat.SampleOf(ds[i]) in Repeat.OfSeries(ds, ds[i].Series())
  {
    if i < |ds| - 1 {
      EveryPointIsASample(ds[..|ds| - 1], i);
    }
  }

  /** A point bears the metric and the tags of one that was put. */
  ghost predicate LabelledAs(d: Datum, put: seq<Datum>) {
    exists i :: 0 <= i < |put| && put[i].metric == d.metric && put[i].tags == d.tags
  }

  lemma LabelledStill(d: Datum, put: seq<Datum>, e: Datum)
    requires LabelledAs(d, put) || (e.metric == d.metric && e.tags == d.tags)
    ensures LabelledAs(d, put + [e])
  {
    if LabelledAs(d, put) {
      var i :| 0 <= i < |put| && put[i].metric == d.metric && put[i].tags == d.tags;
      assert (put + [e])[i] == put[i];
    } else {
      assert (put + [e])[|put|] == e;
    }
  }

  lemma {:induction false} SentAreLabelled(arrivals: seq<Arrival>)
    ensures forall i :: 0 <= i < |Repeat.RunOf(arrivals).sent| ==>
              LabelledAs(Repeat.RunOf(arrivals).sent[i], Repeat.RunOf(arrivals).put)
  {
    if arrivals != [] {
      var front, a := arrivals[..|arrivals| - 1], arrivals[|arrivals| - 1];
      SentAreLabelled(front);
      var r, q := Repeat.RunOf(front), Repeat.RunOf(arrivals);
      forall i | 0 <= i < |q.sent| ensures LabelledAs(q.sent[i], q.put) {
        if i < |r.sent| {
          assert q.sent[i] == r.sent[i];
        }
        LabelledStill(q.sent[i], r.put, a.d);
      }
    }
  }

  ghost predicate AllValidPoints(ft: FloatText, ds: seq<Datum>) {
    forall i :: 0 <= i < |ds| ==> Valid(ft, ds[i])
  }

  /** Whatever the suppressor holds back and lets go, it sends nothing but points that were put. */
  lemma SentWerePut(ft: FloatText, arrivals: seq<Arrival>, i: nat) returns (j: nat)
    requires i < |Repeat.RunOf(arrivals).sent| && AllValidPoints(ft, Repeat.RunOf(arrivals).put)
    ensures j < |Repeat.RunOf(arrivals).put| && Repeat.RunOf(arrivals).put[j] == Repeat.RunOf(arrivals).sent[i]
  {
    var r := Repeat.RunOf(arrivals);
    var d := r.sent[i];
    var s := d.Series();
    EveryPointIsASample(r.sent, i);
    Repeat.SeriesAreIndependent(arrivals, s);
    RepeatSeries.SentWereSeen(Repeat.EventsOf(arrivals, s));
    j := SampleOfOne(r.put, s, Repeat.SampleOf(d));
    SentAreLabelled(arrivals);
    assert LabelledAs(d, r.put);
    var m :| 0 <= m < |r.put| && r.put[m].metric == d.metric && r.put[m].tags == d.tags;
    SeriesSplits(ft, r.put[m]);
    SeriesSplits(ft, r.put[j]);
  }

  // ---- What a run writes on one connection --------------------------------------------------------------

  /** A command is written, or a version request: when a connection is made, and for every acknowledgement. */
  datatype Write = Carry(id: CommandId) | Ask

  function WritesOf(p: Pool, a: Action, k: ConnId): seq<Write>
    requires Client.Wired(p) && Client.Enabled(p, a)
  {
    match a
    case WriteOk => if p.sender.conn == k then [Carry(p.sender.cmd)] else []
    case WriteFail => if p.sender.conn == k then [Carry(p.sender.cmd)] else []
    case AckOk => if p.sender.conn == k then [Ask] else []
    case AckFail => if p.sender.conn == k then [Ask] else []
    case DialDone(_) => if |p.conns| == k then [Ask] else []
    case _ => []
  }

  function Stream(hash: Bytes -> nat, p: Pool, actions: seq<Action>, k: ConnId): seq<Write>
    requires PoolLaws.Legal(hash, p, actions)
    decreases |actions|
  {
    if actions == [] then []
    else WritesOf(p, actions[0], k) + Stream(hash, Client.Next(hash, p, actions[0]), actions[1..], k)
  }

  function Carried(ws: seq<Write>): seq<CommandId> {
    if ws == [] then [] else (if ws[0].Carry? then [ws[0].id] else []) + Carried(ws[1..])
  }

  lemma {:induction false} CarriedConcat(a: seq<Write>, b: seq<Write>)
    ensures Carried(a + b) == Carried(a) + Carried(b)
  {
    if a == [] {
      assert [] + b == b && [] + Carried(b) == Carried(b);
    } else {
      assert (a + b)[1..] == a[1..] + b;
      CarriedConcat(a[1..], b);
      ConcatAssoc(if a[0].Carry? then [a[0].id] else [], Carried(a[1..]), Carried(b));
    }
  }

  /** What the books of a connection say was written on it: the last may have failed half-way. */
  function Booked(p: Pool, k: ConnId): seq<CommandId> {
    if k >= |p.conns| then []
    else p.conns[k].wire + match p.conns[k].lost case None => [] case Some(id) => [id]
  }

  lemma NothingLostYet(p: Pool)
    requires Client.Wired(p) && PoolLaws.Tidy(p) && p.sender.Routed?
    ensures p.conns[p.sender.conn].lost == None
  {
    assert PoolLaws.ConnTidy(p.conns[p.sender.conn], p.sender.conn, p.up, p.sender);
  }

  lemma WriteIsBooked(hash: Bytes -> nat, p: Pool, a: Action)
    requires Client.Wired(p) && Client.Enabled(p, a) && (a.WriteOk? || a.WriteFail?)
    requires p.conns[p.sender.conn].lost == None
    ensures Booked(Client.Next(hash, p, a), p.sender.conn) == Booked(p, p.sender.conn) + [p.sender.cmd]
  {
    var k, id := p.sender.conn, p.sender.cmd;
    var wire := p.conns[k].wire;
    assert Booked(p, k) == wire + [] == wire;
    if a.WriteOk? {
      var conn := PoolLaws.WriteOkParts(hash, p);
      assert Booked(Client.Next(hash, p, a), k) == wire + [id] + [] == wire + [id];
    } else {
      var conn := PoolLaws.WriteFailParts(hash, p);
      assert Booked(Client.Next(hash, p, a), k) == wire + [id];
    }
  }

  lemma OthersAreBooked(hash: Bytes -> nat, p: Pool, a: Action, k: ConnId)
    requires Client.Wired(p) && Client.Enabled(p, a)
    requires (a.WriteOk? || a.WriteFail?) ==> p.sender.conn != k
    ensures Booked(Client.Next(hash, p, a), k) == Booked(p, k)
  {
  }

  lemma OthersCarryNothing(p: Pool, a: Action, k: ConnId)
    requires Client.Wired(p) && Client.Enabled(p, a)
    requires (a.WriteOk? || a.WriteFail?) ==> p.sender.conn != k
    ensures Carried(WritesOf(p, a, k)) == []
  {
  }

  lemma CarryingOne(p: Pool, a: Action)
    requires Client.Wired(p) && Client.Enabled(p, a) && (a.WriteOk? || a.WriteFail?)
    ensures Carried(WritesOf(p, a, p.sender.conn)) == [p.sender.cmd]
  {
    assert WritesOf(p, a, p.sender.conn) == [Carry(p.sender.cmd)];
  }

  lemma BookedNext(hash: Bytes -> nat, p: Pool, a: Action, k: ConnId)
    requires Client.Wired(p) && PoolLaws.Tidy(p) && Client.Enabled(p, a)
    ensures Booked(Client.Next(hash, p, a), k) == Booked(p, k) + Carried(WritesOf(p, a, k))
  {
    if (a.WriteOk? || a.WriteFail?) && p.sender.conn == k {
      NothingLostYet(p);
      WriteIsBooked(hash, p, a);
      CarryingOne(p, a);
    } else {
      OthersAreBooked(hash, p, a, k);
      OthersCarryNothing(p, a, k);
      assert Booked(p, k) + [] == Booked(p, k);
    }
  }

  /** On every connection the commands were written that its books say, and those of a run in that order. */
  lemma {:induction false} StreamIsBooked(hash: Bytes -> nat, p: Pool, actions: seq<Action>, k: ConnId,
                                          slots: multiset<Client.Address>)
    requires PoolLaws.Inv(p, slots) && PoolLaws.Legal(hash, p, actions)
    ensures Booked(PoolLaws.After(hash, p, actions), k) == Booked(p, k) + Carried(Stream(hash, p, actions, k))
    decreases |actions|
  {
    if actions == [] {
      assert Booked(p, k) + [] == Booked(p, k);
    } else {
      var q := Client.Next(hash, p, actions[0]);
      BookedNext(hash, p, actions[0], k);
      PoolLaws.InvNext(hash, p, actions[0], slots);
      StreamIsBooked(hash, q, actions[1..], k, slots);
      CarriedConcat(WritesOf(p, actions[0], k), Stream(hash, q, actions[1..], k));
      ConcatAssoc(Booked(p, k), Carried(WritesOf(p, actions[0], k)), Carried(Stream(hash, q, actions[1..], k)));
    }
  }

  ghost predicate Known(ws: seq<Write>, n: nat) {
    forall i :: 0 <= i < |ws| && ws[i].Carry? ==> ws[i].id < n
  }

  lemma {:induction false} StreamIsKnown(hash: Bytes -> nat, p: Pool, actions: seq<Action>, k: ConnId)
    requires PoolLaws.Legal(hash, p, actions)
    ensures Known(Stream(hash, p, actions, k), |PoolLaws.After(hash, p, actions).log|)
    decreases |actions|
  {
    if actions != [] {
      Delivery.LogIsSubmitted(hash, p, actions);
      StreamIsKnown(hash, Client.Next(hash, p, actions[0]), actions[1..], k);
      assert Known(WritesOf(p, actions[0], k), |p.log|);
    }
  }

  /** The bytes of these writes. */
  function BytesOf(log: seq<Bytes>, ws: seq<Write>): Bytes
    requires Known(ws, |log|)
  {
    if ws == [] then []
    else (match ws[0] case Carry(id) => log[id] case Ask => VERSION + [NEWLINE]) + BytesOf(log, ws[1..])
  }

  // ---- The same, as commands of points ------------------------------------------------------------------

  function AsCommands(sent: seq<Datum>, ws: seq<Write>): seq<Command>
    requires Known(ws, |sent|)
  {
    if ws == [] then []
    else [match ws[0] case Carry(id) => PutPoint(sent[id]) case Ask => AskVersion] + AsCommands(sent, ws[1..])
  }

  /** The points with these ids. */
  function Pick(sent: seq<Datum>, ids: seq<CommandId>): (ds: seq<Datum>)
    requires forall i :: 0 <= i < |ids| ==> ids[i] < |sent|
    ensures |ds| == |ids| && forall i :: 0 <= i < |ids| ==> ds[i] == sent[ids[i]]
  {
    if ids == [] then [] else [sent[ids[0]]] + Pick(sent, ids[1..])
  }

  lemma {:induction false} CarriedAreKnown(ws: seq<Write>, n: nat)
    requires Known(ws, n)
    ensures forall i :: 0 <= i < |Carried(ws)| ==> Carried(ws)[i] < n
  {
    if ws != [] {
      CarriedAreKnown(ws[1..], n);
    }
  }

  lemma CarryOne(sent: seq<Datum>, id: CommandId, rest: seq<CommandId>)
    requires id < |sent| && forall i :: 0 <= i < |rest| ==> rest[i] < |sent|
    ensures Pick(sent, [id] + rest) == [sent[id]] + Pick(sent, rest)
  {
    assert ([id] + rest)[1..] == rest;
  }

  lemma {:induction false} CommandsCarry(sent: seq<Datum>, ws: seq<Write>)
    requires Known(ws, |sent|) && forall i :: 0 <= i < |Carried(ws)| ==> Carried(ws)[i] < |sent|
    ensures Puts(AsCommands(sent, ws)) == Pick(sent, Carried(ws))
  {
    if ws != [] {
      CarriedAreKnown(ws[1..], |sent|);
      CommandsCarry(sent, ws[1..]);
      assert AsCommands(sent, ws)[1..] == AsCommands(sent, ws[1..]);
      if ws[0].Carry? {
        CarryOne(sent, ws[0].id, Carried(ws[1..]));
      } else {
        assert [] + Carried(ws[1..]) == Carried(ws[1..]);
      }
    }
  }

  lemma {:induction false} CommandsFrom(sent: seq<Datum>, ws: seq<Write>, i: nat)
    requires Known(ws, |sent|) && i < |AsCommands(sent, ws)| && AsCommands(sent, ws)[i].PutPoint?
    ensures AsCommands(sent, ws)[i].d in sent
  {
    if i > 0 {
      CommandsFrom(sent, ws[1..], i - 1);
    }
  }

  lemma {:induction false} PutCommandAt(ft: FloatText, ds: seq<Datum>, i: nat)
    requires ClientPut.AllInRange(ft, ds) && i < |ds|
    ensures |Delivery.PutCommands(ft, ds)| == |ds| && Delivery.PutCommands(ft, ds)[i] == PutCommand(ft, ds[i])
  {
    Delivery.CommandsLength(ft, ds);
    if i < |ds| - 1 {
      PutCommandAt(ft, ds[..|ds| - 1], i);
    }
  }

  lemma {:induction false} BytesAreCommands(ft: FloatText, sent: seq<Datum>, ws: seq<Write>)
    requires ClientPut.AllInRange(ft, sent) && Known(ws, |sent|)
    ensures |Delivery.PutCommands(ft, sent)| == |sent|
    ensures forall i :: 0 <= i < |AsCommands(sent, ws)| && AsCommands(sent, ws)[i].PutPoint? ==>
              InRange(ft, AsCommands(sent, ws)[i].d)
    ensures BytesOf(Delivery.PutCommands(ft, sent), ws) == StreamText(ft, AsCommands(sent, ws))
  {
    Delivery.CommandsLength(ft, sent);
    if ws != [] {
      BytesAreCommands(ft, sent, ws[1..]);
      var cs := AsCommands(sent, ws);
      assert cs[1..] == AsCommands(sent, ws[1..]);
      if ws[0].Carry? {
        PutCommandAt(ft, sent, ws[0].id);
      }
    }
  }

  // ---- A connection that breaks -------------------------------------------------------------------------

  /** How many of the commands arrive whole when a stream is cut after n bytes. */
  function Whole(ft: FloatText, cs: seq<Command>, n: nat): (j: nat)
    requires forall i :: 0 <= i < |cs| && cs[i].PutPoint? ==> InRange(ft, cs[i].d)
    ensures j <= |cs|
  {
    if cs == [] || n < |CommandText(ft, cs[0])| then 0
    else 1 + Whole(ft, cs[1..], n - |CommandText(ft, cs[0])|)
  }

  /** What is left of the first command that does not. */
  function Torn(ft: FloatText, cs: seq<Command>, n: nat): Bytes
    requires forall i :: 0 <= i < |cs| && cs[i].PutPoint? ==> InRange(ft, cs[i].d)
  {
    if cs == [] then []
    else if n < |CommandText(ft, cs[0])| then CommandText(ft, cs[0])[..n]
    else Torn(ft, cs[1..], n - |CommandText(ft, cs[0])|)
  }

  /** What the aggregator makes of a command that breaks off. */
  function TornPoints(ft: FloatText, part: Bytes): seq<Decoding> {
    if PUT <= part then [Unmarshal(ft, part[|PUT|..])] else []
  }

  function TornReplies(part: Bytes): seq<Reply> {
    if part == [] || PUT <= part then [] else if part == VERSION then [BuiltOn] else [InvalidCommand]
  }

  lemma OneLineScans(b: Bytes)
    requires NEWLINE !in b && CARRIAGE_RETURN !in b
    ensures ScanLines(b) == if b == [] then [] else [b]
  {
  }

  lemma TornPutYields(ft: FloatText, text: Bytes)
    requires NEWLINE !in text && |text| < BUFFER_SIZE
    ensures Yields(ft, [PUT + text], [Unmarshal(ft, text)], [])
  {
    var line := PUT + text;
    var lines: seq<Bytes> := [line];
    assert line[0] == 112 && line != VERSION && line[|PUT|..] == text && lines[1..] == [];
    LineThenRest(text, []);
    assert PutBytes(lines) == text + [NEWLINE] + [];
    LastScan([]);
    assert Decodings(ft, [text]) == [Unmarshal(ft, text)];
  }

  lemma TornOtherYields(ft: FloatText, part: Bytes)
    requires part != [] && !(PUT <= part)
    ensures Yields(ft, [part], [], TornReplies(part))
  {
    var lines: seq<Bytes> := [part];
    assert lines[1..] == [];
    LastScan([]);
  }

  lemma TornHasNoEnd(ft: FloatText, c: Command, part: Bytes)
    requires Lawful(ft) && Sendable(ft, c) && part <= CommandText(ft, c) && |part| < |CommandText(ft, c)|
    ensures NEWLINE !in part && CARRIAGE_RETURN !in part
    ensures PUT <= part ==> |part| < |PUT| + BUFFER_SIZE
  {
    LineOfIsWhole(ft, c);
    var line := LineOf(ft, c);
    assert part == line[..|part|];
    if c.PutPoint? {
      PrintedIsOneLine(ft, c.d);
    }
    assert CARRIAGE_RETURN !in line;
  }

  lemma PartYields(ft: FloatText, part: Bytes)
    requires NEWLINE !in part && CARRIAGE_RETURN !in part && (PUT <= part ==> |part| < |PUT| + BUFFER_SIZE)
    ensures Yields(ft, ScanLines(part), TornPoints(ft, part), TornReplies(part))
  {
    OneLineScans(part);
    if part == [] {
      NothingYields(ft);
    } else if PUT <= part {
      WholePart(ft, part);
    } else {
      TornOtherYields(ft, part);
    }
  }

  lemma WholePart(ft: FloatText, part: Bytes)
    requires NEWLINE !in part && PUT <= part && |part| < |PUT| + BUFFER_SIZE
    ensures Yields(ft, [part], TornPoints(ft, part), TornReplies(part))
  {
    var text := part[|PUT|..];
    assert PUT + text == part;
    TornPutYields(ft, text);
  }

  lemma NothingYields(ft: FloatText)
    ensures Yields(ft, ScanLines([]), TornPoints(ft, []), TornReplies([]))
  {
    LastScan([]);
  }

  /** A command that breaks off: before its newline nothing tells a point from a longer one. */
  lemma TornYields(ft: FloatText, c: Command, part: Bytes)
    requires Lawful(ft) && Sendable(ft, c) && part <= CommandText(ft, c) && |part| < |CommandText(ft, c)|
    ensures Yields(ft, ScanLines(part), TornPoints(ft, part), TornReplies(part))
  {
    TornHasNoEnd(ft, c, part);
    PartYields(ft, part);
  }

  ghost predicate IsTorn(ft: FloatText, cs: seq<Command>, j: nat, part: Bytes)
    requires forall i :: 0 <= i < |cs| && cs[i].PutPoint? ==> InRange(ft, cs[i].d)
  {
    j <= |cs| && if j == |cs| then part == []
                 else part <= CommandText(ft, cs[j]) && |part| < |CommandText(ft, cs[j])|
  }

  /** The first n bytes are those of j whole commands and part of one more. */
  ghost predicate IsCut(ft: FloatText, cs: seq<Command>, n: nat, j: nat, part: Bytes)
    requires forall i :: 0 <= i < |cs| && cs[i].PutPoint? ==> InRange(ft, cs[i].d)
  {
    IsTorn(ft, cs, j, part) && n <= |StreamText(ft, cs)| && StreamText(ft, cs)[..n] == StreamText(ft, cs[..j]) + part
  }

  /** Cutting a stream leaves whole commands and the beginning of one more. */
  lemma {:induction false} CutStream(ft: FloatText, cs: seq<Command>, n: nat)
    requires forall i :: 0 <= i < |cs| && cs[i].PutPoint? ==> InRange(ft, cs[i].d)
    requires n <= |StreamText(ft, cs)|
    ensures IsCut(ft, cs, n, Whole(ft, cs, n), Torn(ft, cs, n))
  {
    if cs == [] {
      NothingCut(ft);
    } else if n < |CommandText(ft, cs[0])| {
      CutEarly(ft, cs, n);
    } else {
      var more, m: nat := cs[1..], n - |CommandText(ft, cs[0])|;
      WholeLater(ft, cs, n);
      assert m <= |StreamText(ft, more)|;
      CutStream(ft, more, m);
      var j, part := Whole(ft, more, m), Torn(ft, more, m);
      CutLater(ft, cs, n, j, part);
      assert Whole(ft, cs, n) == j + 1 && Torn(ft, cs, n) == part;
    }
  }

  lemma NothingCut(ft: FloatText)
    ensures IsCut(ft, [], 0, Whole(ft, [], 0), Torn(ft, [], 0))
  {
  }

  lemma CutEarly(ft: FloatText, cs: seq<Command>, n: nat)
    requires forall i :: 0 <= i < |cs| && cs[i].PutPoint? ==> InRange(ft, cs[i].d)
    requires cs != [] && n < |CommandText(ft, cs[0])|
    ensures IsCut(ft, cs, n, 0, CommandText(ft, cs[0])[..n])
    ensures Whole(ft, cs, n) == 0 && Torn(ft, cs, n) == CommandText(ft, cs[0])[..n]
  {
    var text, rest := CommandText(ft, cs[0]), StreamText(ft, cs[1..]);
    assert (text + rest)[..n] == text[..n] && [] + text[..n] == text[..n];
  }

  lemma CutLater(ft: FloatText, cs: seq<Command>, n: nat, j: nat, part: Bytes)
    requires forall i :: 0 <= i < |cs| && cs[i].PutPoint? ==> InRange(ft, cs[i].d)
    requires cs != [] && |CommandText(ft, cs[0])| <= n
    requires IsCut(ft, cs[1..], n - |CommandText(ft, cs[0])|, j, part)
    ensures IsCut(ft, cs, n, j + 1, part)
  {
    var text, more := CommandText(ft, cs[0]), cs[1..];
    TornLater(ft, cs, j, part);
    FirstOf(ft, cs, j);
    CutBehind(StreamText(ft, cs), text, StreamText(ft, more), n, StreamText(ft, more[..j]), part);
  }

  lemma WholeLater(ft: FloatText, cs: seq<Command>, n: nat)
    requires forall i :: 0 <= i < |cs| && cs[i].PutPoint? ==> InRange(ft, cs[i].d)
    requires cs != [] && |CommandText(ft, cs[0])| <= n
    ensures var more, m := cs[1..], n - |CommandText(ft, cs[0])|;
            Whole(ft, cs, n) == Whole(ft, more, m) + 1 && Torn(ft, cs, n) == Torn(ft, more, m)
    ensures StreamText(ft, cs) == CommandText(ft, cs[0]) + StreamText(ft, cs[1..])
    ensures |StreamText(ft, cs)| == |CommandText(ft, cs[0])| + |StreamText(ft, cs[1..])|
  {
  }

  lemma TornLater(ft: FloatText, cs: seq<Command>, j: nat, part: Bytes)
    requires forall i :: 0 <= i < |cs| && cs[i].PutPoint? ==> InRange(ft, cs[i].d)
    requires cs != [] && IsTorn(ft, cs[1..], j, part)
    ensures IsTorn(ft, cs, j + 1, part)
  {
    if j < |cs| - 1 {
      assert cs[1..][j] == cs[j + 1];
    }
  }

  lemma CutBehind(all: Bytes, a: Bytes, b: Bytes, n: nat, w: Bytes, part: Bytes)
    requires all == a + b && |a| <= n <= |all| && b[..n - |a|] == w + part
    ensures all[..n] == (a + w) + part
  {
    assert (a + b)[..n] == a + b[..n - |a|];
  }

  lemma FirstOf(ft: FloatText, cs: seq<Command>, j: nat)
    requires forall i :: 0 <= i < |cs| && cs[i].PutPoint? ==> InRange(ft, cs[i].d)
    requires j < |cs|
    ensures StreamText(ft, cs[..j + 1]) == CommandText(ft, cs[0]) + StreamText(ft, cs[1..][..j])
  {
    assert cs[..j + 1][1..] == cs[1..][..j];
  }

  lemma AllArrive(ft: FloatText, cs: seq<Command>)
    requires forall i :: 0 <= i < |cs| && cs[i].PutPoint? ==> InRange(ft, cs[i].d)
    ensures Whole(ft, cs, |StreamText(ft, cs)|) == |cs| && Torn(ft, cs, |StreamText(ft, cs)|) == []
  {
    if cs != [] {
      AllArrive(ft, cs[1..]);
    }
  }

  ghost predicate Clean(ft: FloatText, cs: seq<Command>) {
    forall i :: 0 <= i < |cs| && cs[i].PutPoint? ==>
      Valid(ft, cs[i].d) && InRange(ft, cs[i].d) && Printable(ft, cs[i].d)
  }

  lemma CutYields(ft: FloatText, cs: seq<Command>, n: nat)
    requires Lawful(ft) && Clean(ft, cs) && n <= |StreamText(ft, cs)|
    ensures var j, part := Whole(ft, cs, n), Torn(ft, cs, n);
            Yields(ft, ScanLines(StreamText(ft, cs)[..n]),
                   Same(Puts(cs[..j])) + TornPoints(ft, part), Versions(cs[..j]) + TornReplies(part))
  {
    var j, part := Whole(ft, cs, n), Torn(ft, cs, n);
    CutStream(ft, cs, n);
    assert Yields(ft, ScanLines(part), TornPoints(ft, part), TornReplies(part)) by {
      if j == |cs| {
        NothingYields(ft);
      } else {
        TornYields(ft, cs[j], part);
      }
    }
    CommandsInFront(ft, cs[..j], part, TornPoints(ft, part), TornReplies(part));
    PutsFrom(cs[..j]);
    RereadPrintable(ft, Puts(cs[..j]));
  }

  /**
   However much of the stream of a connection arrives before it breaks: the commands that arrive whole are decoded and
   answered in order, and the one that breaks off is taken for a command of its own.
   */
  method DeliverCut(ft: FloatText, cs: seq<Command>, n: nat) returns (results: seq<Decoding>, replies: seq<Reply>)
    requires Lawful(ft) && Clean(ft, cs) && n <= |StreamText(ft, cs)|
    ensures var j, part := Whole(ft, cs, n), Torn(ft, cs, n);
            && IsTorn(ft, cs, j, part)
            && results == Same(Puts(cs[..j])) + TornPoints(ft, part)
            && Answers(replies) == Versions(cs[..j]) + TornReplies(part)
  {
    CutStream(ft, cs, n);
    CutYields(ft, cs, n);
    var full;
    results, replies, full := Serve(ft, StreamText(ft, cs)[..n]);
  }

  lemma AppendGrows(ft: FloatText, d: Datum, c: byte)
    requires InRange(ft, d)
    ensures Append(ft, d.(tags := d.tags + [c])) == Append(ft, d) + [c]
  {
    var time, value := FormatInt(QuoTrunc(d.time, SECOND)), ValueText(ft, d.value);
    ConcatAssoc(value, d.tags, [c]);
    ConcatAssoc([SPACE], value + d.tags, [c]);
    ConcatAssoc(time, [SPACE] + (value + d.tags), [c]);
    ConcatAssoc([SPACE], time + ([SPACE] + (value + d.tags)), [c]);
    ConcatAssoc(d.metric, [SPACE] + (time + ([SPACE] + (value + d.tags))), [c]);
  }

  lemma CutBeforeEnd(text: Bytes, c: byte)
    ensures var cmd := PUT + (text + [c]) + [NEWLINE];
            |cmd| == |PUT| + |text| + 2 && cmd[..|cmd| - 2] == PUT + text
  {
  }

  /** A put that breaks off in its last tag is taken for a point of another series. */
  lemma TornPutIsAnother(ft: FloatText, d: Datum, c: byte)
    requires Lawful(ft) && Valid(ft, d) && InRange(ft, d) && Printable(ft, d)
    requires Valid(ft, d.(tags := d.tags + [c]))
    ensures var e := d.(tags := d.tags + [c]);
            && TornPoints(ft, PutCommand(ft, e)[..|PutCommand(ft, e)| - 2]) == [Decoded(d)]
            && d.Series() != e.Series()
  {
    var e := d.(tags := d.tags + [c]);
    AppendGrows(ft, d, c);
    CutBeforeEnd(Append(ft, d), c);
    RoundTripIff(ft, d);
    TornText(ft, Append(ft, d));
    LongerSeries(d, c);
  }

  lemma TornText(ft: FloatText, text: Bytes)
    ensures TornPoints(ft, PUT + text) == [Unmarshal(ft, text)]
  {
  }

  lemma LongerSeries(d: Datum, c: byte)
    ensures |d.(tags := d.tags + [c]).Series()| == |d.Series()| + 1
  {
  }

  // ---- From Put to the aggregator -----------------------------------------------------------------------

  /** Everything that is put is valid and survives the text form. */
  ghost predicate PutsPrintable(ft: FloatText, arrivals: seq<Arrival>) {
    forall i :: 0 <= i < |arrivals| ==>
      Valid(ft, arrivals[i].d) && InRange(ft, arrivals[i].d) && Printable(ft, arrivals[i].d)
  }

  lemma {:induction false} PutAre(arrivals: seq<Arrival>)
    ensures var put := Repeat.RunOf(arrivals).put;
            |put| == |arrivals| && forall i :: 0 <= i < |put| ==> put[i] == arrivals[i].d
  {
    if arrivals != [] {
      PutAre(arrivals[..|arrivals| - 1]);
    }
  }

  lemma SentArePrintable(ft: FloatText, arrivals: seq<Arrival>)
    requires PutsPrintable(ft, arrivals)
    ensures AllPrintable(ft, Repeat.RunOf(arrivals).sent)
  {
    PutAre(arrivals);
    var sent := Repeat.RunOf(arrivals).sent;
    forall i | 0 <= i < |sent| ensures Valid(ft, sent[i]) && InRange(ft, sent[i]) && Printable(ft, sent[i]) {
      var j := SentWerePut(ft, arrivals, i);
    }
  }

  /** A run of a client from its start: puts and whatever the goroutines of the pool do meanwhile. */
  ghost predicate ARun(hash: Bytes -> nat, slots: multiset<Client.Address>, ft: FloatText,
                       hs: seq<Delivery.Happening>) {
    && PutsPrintable(ft, Delivery.Puts(hs)) && Delivery.OnlyPutsSubmit(hs)
    && PoolLaws.Legal(hash, Client.Start(slots), Delivery.Steps(ft, hs))
  }

  lemma WritesAreClean(ft: FloatText, arrivals: seq<Arrival>, ws: seq<Write>)
    requires PutsPrintable(ft, arrivals) && Known(ws, |Repeat.RunOf(arrivals).sent|)
    ensures Clean(ft, AsCommands(Repeat.RunOf(arrivals).sent, ws))
  {
    SentArePrintable(ft, arrivals);
    var sent := Repeat.RunOf(arrivals).sent;
    var cs := AsCommands(sent, ws);
    forall i | 0 <= i < |cs| && cs[i].PutPoint?
      ensures Valid(ft, cs[i].d) && InRange(ft, cs[i].d) && Printable(ft, cs[i].d)
    {
      CommandsFrom(sent, ws, i);
    }
  }

  /** The state of the pool after a run, and what the run wrote on connection k. */
  function End(hash: Bytes -> nat, slots: multiset<Client.Address>, ft: FloatText,
               hs: seq<Delivery.Happening>): Pool
    requires ARun(hash, slots, ft, hs)
  {
    PoolLaws.After(hash, Client.Start(slots), Delivery.Steps(ft, hs))
  }

  function Written(hash: Bytes -> nat, slots: multiset<Client.Address>, ft: FloatText,
                   hs: seq<Delivery.Happening>, k: ConnId): seq<Write>
    requires ARun(hash, slots, ft, hs)
  {
    Stream(hash, Client.Start(slots), Delivery.Steps(ft, hs), k)
  }

  /** The bytes that the run writes on connection k. */
  function Octets(hash: Bytes -> nat, slots: multiset<Client.Address>, ft: FloatText,
                  hs: seq<Delivery.Happening>, k: ConnId): Bytes
    requires ARun(hash, slots, ft, hs)
  {
    StreamIsKnown(hash, Client.Start(slots), Delivery.Steps(ft, hs), k);
    BytesOf(End(hash, slots, ft, hs).log, Written(hash, slots, ft, hs, k))
  }

  lemma WrittenIsBooked(hash: Bytes -> nat, hosts: seq<Client.Address>, maxConns: nat, ft: FloatText,
                        hs: seq<Delivery.Happening>, k: ConnId)
    requires ARun(hash, Client.Dials(hosts, maxConns), ft, hs)
    ensures var slots := Client.Dials(hosts, maxConns);
            var p, ws := End(hash, slots, ft, hs), Written(hash, slots, ft, hs, k);
            Known(ws, |p.log|) && Carried(ws) == Booked(p, k)
  {
    var slots := Client.Dials(hosts, maxConns);
    StreamIsKnown(hash, Client.Start(slots), Delivery.Steps(ft, hs), k);
    PoolLaws.Conservation(hash, hosts, maxConns, []);
    StreamIsBooked(hash, Client.Start(slots), Delivery.Steps(ft, hs), k, slots);
    var ws := Written(hash, slots, ft, hs, k);
    assert [] + Carried(ws) == Carried(ws);
  }

  /** What the books of connection k say was written on it, as points. */
  ghost predicate Books(p: Pool, sent: seq<Datum>, k: ConnId, ds: seq<Datum>) {
    && |p.log| == |sent| && (forall i :: 0 <= i < |Booked(p, k)| ==> Booked(p, k)[i] < |sent|)
    && ds == Pick(sent, Booked(p, k))
  }

  lemma LogOfRun(hash: Bytes -> nat, hosts: seq<Client.Address>, maxConns: nat, ft: FloatText,
                 hs: seq<Delivery.Happening>)
    requires ARun(hash, Client.Dials(hosts, maxConns), ft, hs)
    ensures var sent := Repeat.RunOf(Delivery.Puts(hs)).sent;
            && ClientPut.AllInRange(ft, sent) && |Delivery.PutCommands(ft, sent)| == |sent|
            && End(hash, Client.Dials(hosts, maxConns), ft, hs).log == Delivery.PutCommands(ft, sent)
  {
    Delivery.EverySentPointHasAPlace(hash, hosts, maxConns, ft, hs);
    Delivery.CommandsLength(ft, Repeat.RunOf(Delivery.Puts(hs)).sent);
  }

  lemma WritesAreBooks(p: Pool, sent: seq<Datum>, k: ConnId, ws: seq<Write>)
    requires |p.log| == |sent| && Known(ws, |sent|) && Carried(ws) == Booked(p, k)
    ensures Books(p, sent, k, Puts(AsCommands(sent, ws)))
  {
    CarriedAreKnown(ws, |sent|);
    CommandsCarry(sent, ws);
  }

  /** The commands that the run writes on connection k, as commands of the points that the suppressor let through. */
  function Carries(hash: Bytes -> nat, hosts: seq<Client.Address>, maxConns: nat, ft: FloatText,
                   hs: seq<Delivery.Happening>, k: ConnId): (cs: seq<Command>)
    requires ARun(hash, Client.Dials(hosts, maxConns), ft, hs)
    ensures Clean(ft, cs)
  {
    LogOfRun(hash, hosts, maxConns, ft, hs);
    WrittenIsBooked(hash, hosts, maxConns, ft, hs, k);
    WritesAreClean(ft, Delivery.Puts(hs), Written(hash, Client.Dials(hosts, maxConns), ft, hs, k));
    AsCommands(Repeat.RunOf(Delivery.Puts(hs)).sent, Written(hash, Client.Dials(hosts, maxConns), ft, hs, k))
  }

  /** What a run writes on connection k: the put commands of the points on its books, in order, and versions. */
  lemma RunWrites(hash: Bytes -> nat, hosts: seq<Client.Address>, maxConns: nat, ft: FloatText,
                  hs: seq<Delivery.Happening>, k: ConnId)
    requires ARun(hash, Client.Dials(hosts, maxConns), ft, hs)
    ensures var slots, cs := Client.Dials(hosts, maxConns), Carries(hash, hosts, maxConns, ft, hs, k);
            && StreamText(ft, cs) == Octets(hash, slots, ft, hs, k)
            && Books(End(hash, slots, ft, hs), Repeat.RunOf(Delivery.Puts(hs)).sent, k, Puts(cs))
  {
    var slots := Client.Dials(hosts, maxConns);
    var p, ws := End(hash, slots, ft, hs), Written(hash, slots, ft, hs, k);
    var sent := Repeat.RunOf(Delivery.Puts(hs)).sent;
    LogOfRun(hash, hosts, maxConns, ft, hs);
    WrittenIsBooked(hash, hosts, maxConns, ft, hs, k);
    BytesAreCommands(ft, sent, ws);
    WritesAreBooks(p, sent, k, ws);
  }

  /**
   From Put to the aggregator, in every interleaved run and on every connection, however the bytes are chopped up and
   wherever the connection breaks: the points decoded are the first of those on the books of the connection, in order
   and equal, then what is taken for a point of a command that breaks off; and all of them, if all bytes arrive.
   */
  method Relay(hash: Bytes -> nat, hosts: seq<Client.Address>, maxConns: nat, ft: FloatText,
               hs: seq<Delivery.Happening>, k: ConnId, n: nat)
    returns (results: seq<Decoding>, replies: seq<Reply>)
    requires Lawful(ft) && ARun(hash, Client.Dials(hosts, maxConns), ft, hs)
    requires n <= |Octets(hash, Client.Dials(hosts, maxConns), ft, hs, k)|
    ensures var cs := Carries(hash, hosts, maxConns, ft, hs, k);
            var j, part := Whole(ft, cs, n), Torn(ft, cs, n);
            && IsTorn(ft, cs, j, part)
            && results == Same(Puts(cs[..j])) + TornPoints(ft, part)
            && Answers(replies) == Versions(cs[..j]) + TornReplies(part)
    ensures n == |Octets(hash, Client.Dials(hosts, maxConns), ft, hs, k)| ==>
              var p, sent := End(hash, Client.Dials(hosts, maxConns), ft, hs), Repeat.RunOf(Delivery.Puts(hs)).sent;
              && (forall i :: 0 <= i < |Booked(p, k)| ==> Booked(p, k)[i] < |sent|)
              && results == Same(Pick(sent, Booked(p, k)))
  {
    ghost var cs := Carries(hash, hosts, maxConns, ft, hs, k);
    RunWrites(hash, hosts, maxConns, ft, hs, k);
    CutStream(ft, cs, n);
    CutYields(ft, cs, n);
    var full;
    results, replies, full := Serve(ft, Octets(hash, Client.Dials(hosts, maxConns), ft, hs, k)[..n]);
    AllThere(ft, cs);
  }

  lemma AllThere(ft: FloatText, cs: seq<Command>)
    requires forall i :: 0 <= i < |cs| && cs[i].PutPoint? ==> InRange(ft, cs[i].d)
    ensures var n := |StreamText(ft, cs)|;
            && Same(Puts(cs[..Whole(ft, cs, n)])) + TornPoints(ft, Torn(ft, cs, n)) == Same(Puts(cs))
            && Versions(cs[..Whole(ft, cs, n)]) + TornReplies(Torn(ft, cs, n)) == Versions(cs)
  {
    AllArrive(ft, cs);
    assert cs[..|cs|] == cs && Same(Puts(cs)) + [] == Same(Puts(cs)) && Versions(cs) + [] == Versions(cs);
  }
}
