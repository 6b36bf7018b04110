/** From the client's commands to the aggregator's points. */
module EndToEnd {
  import opened Bytes
  import opened Collections
  import opened Points
  import opened Codec
  import opened RoundTrip
  import opened Commands
  import opened Wire

  /** What a client writes on a connection. */
  datatype Command = PutPoint(d: Datum) | AskVersion

  ghost predicate Sendable(ft: FloatText, c: Command) {
    c.PutPoint? ==> Valid(ft, c.d) && InRange(ft, c.d) && |Append(ft, c.d)| < BUFFER_SIZE
  }

  ghost predicate AllSendable(ft: FloatText, cs: seq<Command>) {
    forall i :: 0 <= i < |cs| ==> Sendable(ft, cs[i])
  }

  function CommandText(ft: FloatText, c: Command): Bytes
    requires c.PutPoint? ==> InRange(ft, c.d)
  {
    match c
    case PutPoint(d) => PutCommand(ft, d)
    case AskVersion => VERSION + [NEWLINE]
  }

  function StreamText(ft: FloatText, cs: seq<Command>): Bytes
    requires forall i :: 0 <= i < |cs| && cs[i].PutPoint? ==> InRange(ft, cs[i].d)
  {
    if cs == [] then [] else CommandText(ft, cs[0]) + StreamText(ft, cs[1..])
  }

  function Puts(cs: seq<Command>): seq<Datum> {
    if cs == [] then [] else (if cs[0].PutPoint? then [cs[0].d] else []) + Puts(cs[1..])
  }

  function Versions(cs: seq<Command>): seq<Reply> {
    if cs == [] then [] else (if cs[0].AskVersion? then [BuiltOn] else []) + Versions(cs[1..])
  }

  /** What becomes of points that are printed and parsed. */
  function Reread(ft: FloatText, ds: seq<Datum>): seq<Decoding>
    requires forall i :: 0 <= i < |ds| ==> InRange(ft, ds[i])
  {
    if ds == [] then [] else [Unmarshal(ft, Append(ft, ds[0]))] + Reread(ft, ds[1..])
  }

  /** The line of a command, as the scanner yields it. */
  function LineOf(ft: FloatText, c: Command): Bytes
    requires c.PutPoint? ==> InRange(ft, c.d)
  {
    match c
    case PutPoint(d) => PUT + Append(ft, d)
    case AskVersion => VERSION
  }

  lemma LineOfIsWhole(ft: FloatText, c: Command)
    requires Lawful(ft) && Sendable(ft, c)
    ensures CommandText(ft, c) == LineOf(ft, c) + [NEWLINE]
    ensures NEWLINE !in LineOf(ft, c) && DropCR(LineOf(ft, c)) == LineOf(ft, c)
  {
    if c.PutPoint? {
      PrintedIsOneLine(ft, c.d);
    }
  }

  lemma FirstLine(ft: FloatText, c: Command, rest: Bytes)
    requires Lawful(ft) && Sendable(ft, c)
    ensures ScanLines(CommandText(ft, c) + rest) == [LineOf(ft, c)] + ScanLines(rest)
  {
    LineOfIsWhole(ft, c);
    LineThenRest(LineOf(ft, c), rest);
  }

  lemma PutLine(ft: FloatText, d: Datum, lines: seq<Bytes>)
    requires InRange(ft, d)
    ensures PutBytes([PUT + Append(ft, d)] + lines) == Append(ft, d) + [NEWLINE] + PutBytes(lines)
    ensures Replies([PUT + Append(ft, d)] + lines) == Replies(lines)
  {
    var line := PUT + Append(ft, d);
    assert line[0] == 112 && line != VERSION;
    assert line[|PUT|..] == Append(ft, d);
    assert ([line] + lines)[1..] == lines;
  }

  lemma VersionLine(lines: seq<Bytes>)
    ensures PutBytes([VERSION] + lines) == PutBytes(lines)
    ensures Replies([VERSION] + lines) == [BuiltOn] + Replies(lines)
  {
    assert ([VERSION] + lines)[1..] == lines;
  }

  /** One put command in front of a stream is one more line to decode. */
  lemma PutStep(ft: FloatText, d: Datum, rest: Bytes)
    requires Lawful(ft) && Sendable(ft, PutPoint(d))
    ensures var lines, after := ScanLines(PutCommand(ft, d) + rest), ScanLines(rest);
            && (Fits(PutBytes(lines)) <==> Fits(PutBytes(after)))
            && BufferedLines(PutBytes(lines)) == [Append(ft, d)] + BufferedLines(PutBytes(after))
            && Replies(lines) == Replies(after)
  {
    FirstLine(ft, PutPoint(d), rest);
    PutLine(ft, d, ScanLines(rest));
    PrintedIsOneLine(ft, d);
    LineThenRest(Append(ft, d), PutBytes(ScanLines(rest)));
  }

  lemma VersionStep(ft: FloatText, rest: Bytes)
    requires Lawful(ft)
    ensures var lines, after := ScanLines(VERSION + [NEWLINE] + rest), ScanLines(rest);
            PutBytes(lines) == PutBytes(after) && Replies(lines) == [BuiltOn] + Replies(after)
  {
    FirstLine(ft, AskVersion, rest);
    VersionLine(ScanLines(rest));
  }

  lemma {:induction false} PutsInRange(ft: FloatText, cs: seq<Command>)
    requires AllSendable(ft, cs)
    ensures forall i :: 0 <= i < |Puts(cs)| ==> InRange(ft, Puts(cs)[i])
    ensures forall i :: 0 <= i < |cs| && cs[i].PutPoint? ==> InRange(ft, cs[i].d)
  {
    if cs != [] {
      PutsInRange(ft, cs[1..]);
      assert Sendable(ft, cs[0]);
    }
  }

  /** What the aggregator makes of the lines it scans: all of them fit, and these are the points and replies. */
  ghost predicate Yields(ft: FloatText, lines: seq<Bytes>, points: seq<Decoding>, replies: seq<Reply>) {
    Fits(PutBytes(lines)) && Decodings(ft, BufferedLines(PutBytes(lines))) == points && Replies(lines) == replies
  }

  lemma PutYields(ft: FloatText, d: Datum, rest: Bytes, points: seq<Decoding>, replies: seq<Reply>)
    requires Lawful(ft) && Sendable(ft, PutPoint(d)) && Yields(ft, ScanLines(rest), points, replies)
    ensures Yields(ft, ScanLines(PutCommand(ft, d) + rest), [Unmarshal(ft, Append(ft, d))] + points, replies)
  {
    PutStep(ft, d, rest);
    var line, more := Append(ft, d), BufferedLines(PutBytes(ScanLines(rest)));
    assert ([line] + more)[1..] == more;
  }

  lemma VersionYields(ft: FloatText, rest: Bytes, points: seq<Decoding>, replies: seq<Reply>)
    requires Lawful(ft) && Yields(ft, ScanLines(rest), points, replies)
    ensures Yields(ft, ScanLines(VERSION + [NEWLINE] + rest), points, [BuiltOn] + replies)
  {
    VersionStep(ft, rest);
  }

  lemma PutIsNext(ft: FloatText, cs: seq<Command>)
    requires AllSendable(ft, cs) && cs != [] && cs[0].PutPoint?
    ensures (forall i :: 0 <= i < |Puts(cs)| ==> InRange(ft, Puts(cs)[i]))
            && (forall i :: 0 <= i < |Puts(cs[1..])| ==> InRange(ft, Puts(cs[1..])[i]))
            && Reread(ft, Puts(cs)) == [Unmarshal(ft, Append(ft, cs[0].d))] + Reread(ft, Puts(cs[1..]))
    ensures Versions(cs) == Versions(cs[1..])
  {
    PutsInRange(ft, cs);
    PutsInRange(ft, cs[1..]);
    assert Puts(cs)[1..] == Puts(cs[1..]);
  }

  /** The commands of a stream and what comes behind them are decoded and answered one after the other. */
  ghost predicate InFront(ft: FloatText, cs: seq<Command>, tail: Bytes, points: seq<Decoding>, replies: seq<Reply>)
    requires AllSendable(ft, cs)
  {
    PutsInRange(ft, cs);
    Yields(ft, ScanLines(StreamText(ft, cs) + tail), Reread(ft, Puts(cs)) + points, Versions(cs) + replies)
  }

  lemma PutInFront(ft: FloatText, cs: seq<Command>, tail: Bytes, points: seq<Decoding>, replies: seq<Reply>)
    requires Lawful(ft) && AllSendable(ft, cs) && cs != [] && cs[0].PutPoint?
    requires InFront(ft, cs[1..], tail, points, replies)
    ensures InFront(ft, cs, tail, points, replies)
  {
    var more, d := cs[1..], cs[0].d;
    assert Sendable(ft, cs[0]);
    PutsInRange(ft, cs);
    PutsInRange(ft, more);
    PutIsNext(ft, cs);
    PutYields(ft, d, StreamText(ft, more) + tail, Reread(ft, Puts(more)) + points, Versions(more) + replies);
    ConcatAssoc(PutCommand(ft, d), StreamText(ft, more), tail);
    ConcatAssoc([Unmarshal(ft, Append(ft, d))], Reread(ft, Puts(more)), points);
  }

  lemma VersionInFront(ft: FloatText, cs: seq<Command>, tail: Bytes, points: seq<Decoding>, replies: seq<Reply>)
    requires Lawful(ft) && AllSendable(ft, cs) && cs != [] && cs[0].AskVersion?
    requires InFront(ft, cs[1..], tail, points, replies)
    ensures InFront(ft, cs, tail, points, replies)
  {
    var more := cs[1..];
    PutsInRange(ft, cs);
    PutsInRange(ft, more);
    assert Puts(cs) == Puts(more);
    VersionYields(ft, StreamText(ft, more) + tail, Reread(ft, Puts(more)) + points, Versions(more) + replies);
    ConcatAssoc(VERSION + [NEWLINE], StreamText(ft, more), tail);
    ConcatAssoc([BuiltOn], Versions(more), replies);
  }

  lemma {:induction false} CommandsInFront(ft: FloatText, cs: seq<Command>, tail: Bytes, points: seq<Decoding>,
                                           replies: seq<Reply>)
    requires Lawful(ft) && AllSendable(ft, cs) && Yields(ft, ScanLines(tail), points, replies)
    ensures InFront(ft, cs, tail, points, replies)
  {
    PutsInRange(ft, cs);
    if cs == [] {
      NothingInFront(ft, tail, points, replies);
    } else {
      CommandsInFront(ft, cs[1..], tail, points, replies);
      if cs[0].PutPoint? {
        PutInFront(ft, cs, tail, points, replies);
      } else {
        VersionInFront(ft, cs, tail, points, replies);
      }
    }
  }

  lemma NothingInFront(ft: FloatText, tail: Bytes, points: seq<Decoding>, replies: seq<Reply>)
    requires Yields(ft, ScanLines(tail), points, replies)
    ensures InFront(ft, [], tail, points, replies)
  {
    assert [] + tail == tail && [] + points == points && [] + replies == replies;
  }

  ghost predicate InOrder(ft: FloatText, cs: seq<Command>)
    requires AllSendable(ft, cs)
  {
    PutsInRange(ft, cs);
    Yields(ft, ScanLines(StreamText(ft, cs)), Reread(ft, Puts(cs)), Versions(cs))
  }

  /**
   For any interleaving of put and version commands, what the connection loop decodes is, point by point and
   in order, what printing and parsing makes of each; and it answers exactly the version commands.
   */
  lemma DeliveredInOrder(ft: FloatText, cs: seq<Command>)
    requires Lawful(ft) && AllSendable(ft, cs)
    ensures InOrder(ft, cs)
  {
    PutsInRange(ft, cs);
    CommandsInFront(ft, cs, [], [], []);
    assert StreamText(ft, cs) + [] == StreamText(ft, cs) && Versions(cs) + [] == Versions(cs);
    assert Reread(ft, Puts(cs)) + [] == Reread(ft, Puts(cs));
  }

  /** The same points, as the aggregator holds them. */
  function Same(ds: seq<Datum>): seq<Decoding> {
    if ds == [] then [] else [Decoded(ds[0])] + Same(ds[1..])
  }

  lemma {:induction false} SameAt(ds: seq<Datum>)
    ensures |Same(ds)| == |ds| && forall i :: 0 <= i < |ds| ==> Same(ds)[i] == Decoded(ds[i])
  {
    if ds != [] {
      SameAt(ds[1..]);
    }
  }

  ghost predicate AllPrintable(ft: FloatText, ds: seq<Datum>) {
    forall i :: 0 <= i < |ds| ==> Valid(ft, ds[i]) && InRange(ft, ds[i]) && Printable(ft, ds[i])
  }

  lemma {:induction false} RereadPrintable(ft: FloatText, ds: seq<Datum>)
    requires Lawful(ft) && AllPrintable(ft, ds)
    ensures Reread(ft, ds) == Same(ds)
  {
    if ds != [] {
      RoundTripIff(ft, ds[0]);
      RereadPrintable(ft, ds[1..]);
    }
  }

  lemma {:induction false} PutsFrom(cs: seq<Command>)
    ensures forall i :: 0 <= i < |Puts(cs)| ==> PutPoint(Puts(cs)[i]) in cs
  {
    if cs != [] {
      PutsFrom(cs[1..]);
    }
  }

  /** Without syntax errors there are no complaints. */
  lemma {:induction false} NoErrors(ds: seq<Decoding>)
    requires forall i :: 0 <= i < |ds| ==> ds[i].Decoded?
    ensures Errors(ds) == 0
  {
    if ds != [] {
      NoErrors(ds[..|ds| - 1]);
    }
  }

  lemma {:induction false} NoComplaints(rs: seq<Reply>)
    requires Complaints(rs) == 0
    ensures Answers(rs) == rs
  {
    if rs != [] {
      NoComplaints(rs[..|rs| - 1]);
    }
  }

  /**
   End to end: whatever the client interleaves and however its stream is cut up, the aggregator decodes
   exactly the printable points that were put, equal and in order, and answers exactly the version commands.
   */
  method Deliver(ft: FloatText, cs: seq<Command>) returns (results: seq<Decoding>, replies: seq<Reply>)
    requires Lawful(ft)
    requires forall i :: 0 <= i < |cs| && cs[i].PutPoint? ==>
               Valid(ft, cs[i].d) && InRange(ft, cs[i].d) && Printable(ft, cs[i].d)
    ensures results == Same(Puts(cs)) && replies == Versions(cs)
    ensures |results| == |Puts(cs)| && forall i :: 0 <= i < |Puts(cs)| ==> results[i] == Decoded(Puts(cs)[i])
  {
    DeliveredInOrder(ft, cs);
    PutsFrom(cs);
    RereadPrintable(ft, Puts(cs));
    SameAt(Puts(cs));
    var full;
    results, replies, full := Serve(ft, StreamText(ft, cs));
    NoErrors(results);
    NoComplaints(replies);
  }

  // ---- Lines that end in a carriage return -------------------------------------------------------------

  /** The same stream from a client that ends some of its lines in a carriage return and a newline. */
  function WithReturns(ft: FloatText, cs: seq<Command>, crs: seq<bool>): Bytes
    requires |crs| == |cs| && forall i :: 0 <= i < |cs| && cs[i].PutPoint? ==> InRange(ft, cs[i].d)
  {
    if cs == [] then []
    else
      LineOf(ft, cs[0]) + (if crs[0] then [CARRIAGE_RETURN] else []) + [NEWLINE]
      + WithReturns(ft, cs[1..], crs[1..])
  }

  lemma ReturnIsDropped(line: Bytes, rest: Bytes)
    requires NEWLINE !in line && DropCR(line) == line
    ensures ScanLines(line + [CARRIAGE_RETURN] + [NEWLINE] + rest) == [line] + ScanLines(rest)
    ensures ScanLines(line + [NEWLINE] + rest) == [line] + ScanLines(rest)
  {
    LineThenRest(line + [CARRIAGE_RETURN], rest);
    LineThenRest(line, rest);
    assert (line + [CARRIAGE_RETURN])[..|line|] == line;
  }

  /** Whatever lines of the stream end in a carriage return, the connection loop reads the same lines. */
  lemma {:induction false} ReturnsDoNotMatter(ft: FloatText, cs: seq<Command>, crs: seq<bool>)
    requires Lawful(ft) && AllSendable(ft, cs) && |crs| == |cs|
    ensures (forall i :: 0 <= i < |cs| && cs[i].PutPoint? ==> InRange(ft, cs[i].d))
            && ScanLines(WithReturns(ft, cs, crs)) == ScanLines(StreamText(ft, cs))
  {
    PutsInRange(ft, cs);
    if cs != [] {
      ReturnsDoNotMatter(ft, cs[1..], crs[1..]);
      assert Sendable(ft, cs[0]);
      FirstLine(ft, cs[0], StreamText(ft, cs[1..]));
      FirstLineWithReturn(ft, cs[0], crs[0], WithReturns(ft, cs[1..], crs[1..]));
    }
  }

  lemma FirstLineWithReturn(ft: FloatText, c: Command, cr: bool, rest: Bytes)
    requires Lawful(ft) && Sendable(ft, c)
    ensures ScanLines(LineOf(ft, c) + (if cr then [CARRIAGE_RETURN] else []) + [NEWLINE] + rest)
         == [LineOf(ft, c)] + ScanLines(rest)
  {
    LineOfIsWhole(ft, c);
    ReturnIsDropped(LineOf(ft, c), rest);
    assert LineOf(ft, c) + [] == LineOf(ft, c);
  }

  /** So the aggregator gets the same points from it. */
  method DeliverWithReturns(ft: FloatText, cs: seq<Command>, crs: seq<bool>)
    returns (results: seq<Decoding>, replies: seq<Reply>)
    requires Lawful(ft) && |crs| == |cs|
    requires forall i :: 0 <= i < |cs| && cs[i].PutPoint? ==>
               Valid(ft, cs[i].d) && InRange(ft, cs[i].d) && Printable(ft, cs[i].d)
    ensures results == Same(Puts(cs)) && replies == Versions(cs)
  {
    DeliveredInOrder(ft, cs);
    ReturnsDoNotMatter(ft, cs, crs);
    PutsFrom(cs);
    RereadPrintable(ft, Puts(cs));
    SameAt(Puts(cs));
    var full;
    results, replies, full := Serve(ft, WithReturns(ft, cs, crs));
    NoErrors(results);
    NoComplaints(replies);
  }
}
