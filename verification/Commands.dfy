/** The commands of the line protocol as the client writes them, and the series bytes it hashes. */
module Commands {
  import opened Bytes
  import opened Collections
  import opened Points
  import opened TagBlocks
  import opened Decimal
  import opened Codec
  import opened RoundTrip

  const PUT: Bytes := [112, 117, 116, 32]
  const VERSION: Bytes := [118, 101, 114, 115, 105, 111, 110]

  /** The put command of a point. */
  function PutCommand(ft: FloatText, d: Datum): Bytes
    requires InRange(ft, d)
  {
    PUT + Append(ft, d) + [NEWLINE]
  }

  method Put(ft: FloatText, p: Point) returns (cmd: Bytes)
    requires InRange(ft, p.Contents())
    ensures cmd == PutCommand(ft, p.Contents())
  {
    cmd := [];
    cmd := cmd + PUT;
    cmd := AppendPoint(ft, p, cmd);
    cmd := cmd + [NEWLINE];
  }

  /** The printed point inside a put command. */
  function CommandPoint(cmd: Bytes): Bytes
    requires |cmd| > |PUT|
  {
    cmd[|PUT|..|cmd| - 1]
  }

  lemma CommandHoldsPoint(ft: FloatText, d: Datum)
    requires InRange(ft, d)
    ensures CommandPoint(PutCommand(ft, d)) == Append(ft, d)
  {
  }

  /** The bytes that SeriesHash feeds to the hash, or None where it slices out of range. */
  function SeriesBytes(cmd: Bytes): Option<Bytes>
    requires |cmd| > |PUT|
  {
    HashedBytes(CommandPoint(cmd))
  }

  function HashedBytes(buf: Bytes): Option<Bytes> {
    var i := IndexByte(buf, SPACE);
    if i == -1 then None
    else
      var afterMetric := buf[i + 1..];
      var afterTime := afterMetric[IndexByte(afterMetric, SPACE) + 1..];
      var j := IndexByte(afterTime, SPACE);
      if j == -1 then None else Some(buf[..i] + afterTime[j..])
  }

  lemma PastSpace(w: Bytes, rest: Bytes)
    requires SPACE !in w
    ensures var b := w + ([SPACE] + rest);
            IndexByte(b, SPACE) == |w| && b[..|w|] == w && b[|w|..] == [SPACE] + rest && b[|w| + 1..] == rest
  {
    FirstSpace(w, [SPACE] + rest);
    DropDrop(w + ([SPACE] + rest), |w|, 1);
  }

  lemma HashedBytesOf(metric: Bytes, time: Bytes, value: Bytes, tags: Bytes)
    requires SPACE !in metric && SPACE !in time && SPACE !in value
    requires tags == [] || tags[0] == SPACE
    ensures HashedBytes(metric + ([SPACE] + (time + ([SPACE] + (value + tags)))))
         == if tags == [] then None else Some(metric + tags)
  {
    PastSpace(metric, time + ([SPACE] + (value + tags)));
    PastSpace(time, value + tags);
    if tags != [] {
      PastSpace(value, tags[1..]);
      HeadTail(tags);
    }
  }

  /**
   What is hashed for a put command is the series of the point, whatever its time and value. Without tags
   the search for the tag block runs off the command.
   */
  lemma SeriesBytesIff(ft: FloatText, d: Datum)
    requires Lawful(ft) && Valid(ft, d)
    ensures SeriesBytes(PutCommand(ft, d)) == if d.tags == [] then None else Some(d.Series())
  {
    var ts :| ValidAs(ft, d, ts);
    CommandHoldsPoint(ft, d);
    TextIsWord(d.metric);
    ValueTextIsWord(ft, d.value);
    FormatIntShape(QuoTrunc(d.time, SECOND));
    BlockStart(ts);
    HashedBytesOf(d.metric, FormatInt(QuoTrunc(d.time, SECOND)), ValueText(ft, d.value), d.tags);
  }

  /** Two put commands hash alike exactly when their points are of one series. */
  lemma SameSeriesSameBytes(ft: FloatText, d: Datum, e: Datum)
    requires Lawful(ft) && Valid(ft, d) && Valid(ft, e) && d.tags != [] && e.tags != []
    ensures SeriesBytes(PutCommand(ft, d)) == SeriesBytes(PutCommand(ft, e))
            <==> d.metric == e.metric && d.tags == e.tags
  {
    SeriesBytesIff(ft, d);
    SeriesBytesIff(ft, e);
    SeriesSplits(ft, d);
    SeriesSplits(ft, e);
  }

  /** A series tells its metric from its tags: the metric ends at the first space. */
  lemma SeriesSplits(ft: FloatText, d: Datum)
    requires Valid(ft, d)
    ensures Word(d.Series()) == d.metric && AfterWord(d.Series()) == d.tags
  {
    var ts :| ValidAs(ft, d, ts);
    TextIsWord(d.metric);
    BlockStart(ts);
    WordOf(d.metric, d.tags);
  }

  /** Nothing in a printed point ends a line. */
  lemma PrintedIsOneLine(ft: FloatText, d: Datum)
    requires Lawful(ft) && Valid(ft, d)
    ensures NEWLINE !in Append(ft, d) && CARRIAGE_RETURN !in Append(ft, d) && Append(ft, d) != []
  {
    var ts :| ValidAs(ft, d, ts);
    ValueTextIsWord(ft, d.value);
    FormatIntShape(QuoTrunc(d.time, SECOND));
    BlockIsOneLine(ts);
  }

  lemma {:induction false} BlockIsOneLine(ts: seq<Tag>)
    requires AllValid(ts)
    ensures NEWLINE !in Block(ts) && CARRIAGE_RETURN !in Block(ts)
  {
    if ts != [] {
      ValidIsPlain(ts[0]);
      BlockIsOneLine(ts[1..]);
    }
  }
}
