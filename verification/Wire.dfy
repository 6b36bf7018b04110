/** The aggregator's end of a connection: un-framing of put commands, and decoding, under any chunk sizes. */
module Wire {
  import opened Bytes
  import opened Collections
  import opened Points
  import opened Codec
  import opened Commands

  // ---- bufio.Scanner -----------------------------------------------------------------------------------

  function DropCR(b: Bytes): Bytes {
    if b != [] && b[|b| - 1] == CARRIAGE_RETURN then b[..|b| - 1] else b
  }

  /** The lines that a scanner yields; the last one need not be terminated. */
  function ScanLines(b: Bytes): seq<Bytes>
    decreases |b|
  {
    if b == [] then []
    else
      var i := IndexByte(b, NEWLINE);
      if i == -1 then [DropCR(b)] else [DropCR(b[..i])] + ScanLines(b[i + 1..])
  }

  // ---- protocolReader ----------------------------------------------------------------------------------

  /** What is written back on the connection: by the reader, and by the loop behind the decoder. */
  datatype Reply = InvalidCommand | BuiltOn | InvalidSyntax

  function Concat(parts: seq<Bytes>): Bytes {
    if parts == [] then [] else parts[0] + Concat(parts[1..])
  }

  predicate IsPut(cmd: Bytes) { cmd != VERSION && PUT <= cmd }

  /** The bytes that the put commands among the lines deliver. */
  function PutBytes(lines: seq<Bytes>): Bytes {
    if lines == [] then []
    else if IsPut(lines[0]) then lines[0][|PUT|..] + [NEWLINE] + PutBytes(lines[1..])
    else PutBytes(lines[1..])
  }

  /** The replies that the other commands get. */
  function Replies(lines: seq<Bytes>): seq<Reply> {
    if lines == [] then []
    else if lines[0] == VERSION then [BuiltOn] + Replies(lines[1..])
    else if IsPut(lines[0]) then Replies(lines[1..])
    else [InvalidCommand] + Replies(lines[1..])
  }

  /** How many lines come before the next put command. */
  function NextPut(lines: seq<Bytes>): (j: nat)
    ensures j <= |lines| && (forall i :: 0 <= i < j ==> !IsPut(lines[i])) && (j < |lines| ==> IsPut(lines[j]))
  {
    if lines == [] || IsPut(lines[0]) then 0 else 1 + NextPut(lines[1..])
  }

  /** The line that a put command delivers. */
  function PutText(cmd: Bytes): Bytes
    requires IsPut(cmd)
  {
    cmd[|PUT|..]
  }

  lemma {:induction false} NextPutIs(lines: seq<Bytes>, j: nat)
    requires j <= |lines| && forall i :: 0 <= i < j ==> !IsPut(lines[i])
    requires j < |lines| ==> IsPut(lines[j])
    ensures NextPut(lines) == j
  {
    if j > 0 {
      NextPutIs(lines[1..], j - 1);
    }
  }

  lemma {:induction false} RepliesSnoc(lines: seq<Bytes>, cmd: Bytes)
    ensures Replies(lines + [cmd])
         == Replies(lines) + if cmd == VERSION then [BuiltOn] else if IsPut(cmd) then [] else [InvalidCommand]
  {
    if lines == [] {
      assert [] + [cmd] == [cmd] && [cmd][1..] == [];
    } else {
      assert (lines + [cmd])[1..] == lines[1..] + [cmd];
      RepliesSnoc(lines[1..], cmd);
    }
  }

  /** The replies of the reader among all that were written. */
  function Answers(rs: seq<Reply>): seq<Reply> {
    if rs == [] then []
    else Answers(rs[..|rs| - 1]) + if rs[|rs| - 1] == InvalidSyntax then [] else [rs[|rs| - 1]]
  }

  /** How often the loop complained about a line. */
  function Complaints(rs: seq<Reply>): nat {
    if rs == [] then 0 else Complaints(rs[..|rs| - 1]) + if rs[|rs| - 1] == InvalidSyntax then 1 else 0
  }

  lemma OneMoreReply(rs: seq<Reply>, r: Reply)
    ensures Answers(rs + [r]) == Answers(rs) + if r == InvalidSyntax then [] else [r]
    ensures Complaints(rs + [r]) == Complaints(rs) + if r == InvalidSyntax then 1 else 0
  {
    assert (rs + [r])[..|rs|] == rs;
  }

  lemma OneMoreAnswer(rs: seq<Reply>, r: Reply, rest: seq<Reply>)
    requires r != InvalidSyntax
    ensures Answers(rs + [r]) + rest == Answers(rs) + ([r] + rest) && Complaints(rs + [r]) == Complaints(rs)
  {
    OneMoreReply(rs, r);
    ConcatAssoc(Answers(rs), [r], rest);
  }

  lemma CutConcat(line: Bytes, n: nat, rest: Bytes)
    requires n <= |line|
    ensures line + rest == line[..n] + (line[n..] + rest)
  {
    assert line == line[..n] + line[n..];
    ConcatAssoc(line[..n], line[n..], rest);
  }

  /** The reader has answered the first j lines, and written nothing else. */
  ghost predicate AnsweredTo(lines0: seq<Bytes>, replies0: seq<Reply>, j: nat, replies: seq<Reply>) {
    j <= |lines0| && replies == replies0 + Replies(lines0[..j])
  }

  /** The next put command was taken, and its line is text: what is left are the lines behind it. */
  ghost predicate HasTaken(lines0: seq<Bytes>, text: Bytes, lines: seq<Bytes>) {
    var j := NextPut(lines0);
    j < |lines0| && lines == lines0[j + 1..] && text == PutText(lines0[j]) + [NEWLINE]
  }

  /** The reader looks for the next put: the first k lines are none. */
  ghost predicate Skipped(lines0: seq<Bytes>, replies0: seq<Reply>, k: nat, lines: seq<Bytes>, replies: seq<Reply>) {
    && k <= |lines0| && lines == lines0[k..] && (forall i :: 0 <= i < k ==> !IsPut(lines0[i]))
    && replies == replies0 + Replies(lines0[..k])
  }

  lemma SkipMore(lines0: seq<Bytes>, replies0: seq<Reply>, k: nat, replies: seq<Reply>)
    requires k < |lines0| && !IsPut(lines0[k]) && Skipped(lines0, replies0, k, lines0[k..], replies)
    ensures Skipped(lines0, replies0, k + 1, lines0[k..][1..],
                    replies + [if lines0[k] == VERSION then BuiltOn else InvalidCommand])
  {
    DropDrop(lines0, k, 1);
    TakeOneMore(lines0, k);
    RepliesSnoc(lines0[..k], lines0[k]);
    ConcatAssoc(replies0, Replies(lines0[..k]), [if lines0[k] == VERSION then BuiltOn else InvalidCommand]);
  }

  lemma SkippedAll(lines0: seq<Bytes>, replies0: seq<Reply>, k: nat, replies: seq<Reply>)
    requires Skipped(lines0, replies0, k, [], replies)
    ensures NextPut(lines0) == |lines0| && AnsweredTo(lines0, replies0, NextPut(lines0), replies)
  {
    assert k == |lines0|;
    NextPutIs(lines0, k);
  }

  lemma TakesNext(lines0: seq<Bytes>, replies0: seq<Reply>, k: nat, replies: seq<Reply>)
    requires k < |lines0| && Skipped(lines0, replies0, k, lines0[k..], replies) && IsPut(lines0[k])
    ensures AnsweredTo(lines0, replies0, NextPut(lines0), replies)
    ensures HasTaken(lines0, PutText(lines0[k]) + [NEWLINE], lines0[k..][1..])
  {
    NextPutIs(lines0, k);
    var j := NextPut(lines0);
    assert j == k && lines0[j] == lines0[k];
    DropDrop(lines0, j, 1);
  }

  class ProtocolReader {
    var lines: seq<Bytes>  // what the scanner has yet to yield
    var buf: Bytes         // the end of a line that the last reads had no room for
    var replies: seq<Reply>  // everything written on the connection

    /** Everything still to be delivered. */
    function Pending(): Bytes
      reads this
    {
      buf + PutBytes(lines)
    }

    /** Every reply of the reader, sent or still to be sent. */
    function AllReplies(): seq<Reply>
      reads this
    {
      Answers(replies) + Replies(lines)
    }

    constructor (input: Bytes)
      ensures Pending() == PutBytes(ScanLines(input)) && AllReplies() == Replies(ScanLines(input))
      ensures Complaints(replies) == 0
      ensures lines == ScanLines(input) && buf == [] && replies == []
    {
      lines, buf, replies := ScanLines(input), [], [];
    }

    /** What the loop writes back for a decoded line: a complaint after a syntax error. */
    method Answer(d: Decoding)
      modifies this`replies
      ensures AllReplies() == old(AllReplies()) && Pending() == old(Pending())
      ensures Complaints(replies) == old(Complaints(replies)) + if d.Malformed? then 1 else 0
      ensures replies == old(replies) + Rejoinder(d)
    {
      assert replies + [] == replies;
      if d.Malformed? {
        OneMoreReply(replies, InvalidSyntax);
        assert Answers(replies) + [] == Answers(replies);
        replies := replies + [InvalidSyntax];
      }
    }

    /** Copies the start of a line, and keeps the rest for the next read. */
    method CopyOut(out: array<byte>, line: Bytes, ghost rest: Bytes) returns (n: nat)
      requires buf == []
      modifies this`buf, out
      ensures n <= out.Length && out[n..] == old(out[n..]) && out[..n] + buf == line
      ensures line + rest == out[..n] + (buf + rest)
      ensures line != [] && out.Length > 0 ==> n > 0
    {
      n := CopyInto(out, line);
      if n < |line| {
        buf := buf + line[n..];
      }
      assert out[..n] + buf == line;
      ConcatAssoc(out[..n], buf, rest);
    }

    /** Fills as much of out as the next pending bytes allow; makes progress unless out is empty. */
    method Read(out: array<byte>) returns (n: nat, eof: bool)
      modifies this, out
      ensures n <= out.Length && out[n..] == old(out[n..])
      ensures old(Pending()) == out[..n] + Pending()
      ensures AllReplies() == old(AllReplies()) && Complaints(replies) == old(Complaints(replies))
      ensures eof ==> n == 0 && Pending() == [] && lines == []
      ensures !eof ==> old(Pending()) != [] && (out.Length > 0 ==> n > 0)
      ensures if old(buf) != [] then
                !eof && lines == old(lines) && replies == old(replies) && out[..n] + buf == old(buf)
              else
                && AnsweredTo(old(lines), old(replies), NextPut(old(lines)), replies)
                && (if eof then NextPut(old(lines)) == |old(lines)| && buf == []
                    else HasTaken(old(lines), out[..n] + buf, lines))
    {
      if |buf| > 0 {
        n := CopyInto(out, buf);
        CutConcat(buf, n, PutBytes(lines));
        assert buf[..n] + buf[n..] == buf;
        buf := buf[n..];
        return n, false;
      }
      assert buf + PutBytes(lines) == PutBytes(lines);
      ghost var lines0, replies0, k := lines, replies, 0;
      assert replies + Replies(lines[..0]) == replies;
      while |lines| > 0
        invariant buf == [] && out[..] == old(out[..])
        invariant PutBytes(lines) == old(Pending())
        invariant AllReplies() == old(AllReplies()) && Complaints(replies) == old(Complaints(replies))
        invariant Skipped(lines0, replies0, k, lines, replies)
        decreases |lines|
      {
        var cmd := lines[0];
        HeadTail(lines);
        ghost var rest := Replies(lines[1..]);
        if cmd == VERSION {
          SkipMore(lines0, replies0, k, replies);
          OneMoreAnswer(replies, BuiltOn, rest);
          replies := replies + [BuiltOn];
        } else if PUT <= cmd {
          TakesNext(lines0, replies0, k, replies);
          lines := lines[1..];
          var line := cmd[|PUT|..];
          line := line + [NEWLINE];
          n := CopyOut(out, line, PutBytes(lines));
          return n, false;
        } else {
          SkipMore(lines0, replies0, k, replies);
          OneMoreAnswer(replies, InvalidCommand, rest);
          replies := replies + [InvalidCommand];
        }
        lines, k := lines[1..], k + 1;
      }
      SkippedAll(lines0, replies0, k, replies);
      return 0, true;
    }
  }

  /** Go's copy: as much of src as fits. */
  method CopyInto(out: array<byte>, src: Bytes) returns (n: nat)
    modifies out
    ensures n == if |src| <= out.Length then |src| else out.Length
    ensures out[..n] == src[..n] && out[n..] == old(out[n..])
  {
    n := if |src| <= out.Length then |src| else out.Length;
    forall i | 0 <= i < n {
      out[i] := src[i];
    }
  }

  // ---- Decoder -----------------------------------------------------------------------------------------

  const BUFFER_SIZE: nat := 4096

  datatype Scan = Line(line: Bytes) | Eof | BufferFull

  /** The lines that decode from a stream: up to its end, or to a line that overflows the buffer. */
  function BufferedLines(b: Bytes): seq<Bytes>
    decreases |b|
  {
    var i := IndexByte(b, NEWLINE);
    if i == -1 || i >= BUFFER_SIZE then [] else [b[..i]] + BufferedLines(b[i + 1..])
  }

  /** No line of the stream, nor its unterminated end, overflows the buffer. */
  predicate Fits(b: Bytes)
    decreases |b|
  {
    var i := IndexByte(b, NEWLINE);
    if i == -1 then |b| < BUFFER_SIZE else i < BUFFER_SIZE && Fits(b[i + 1..])
  }

  /** How each line of a stream decodes. */
  function Decodings(ft: FloatText, lines: seq<Bytes>): seq<Decoding> {
    if lines == [] then [] else [Unmarshal(ft, lines[0])] + Decodings(ft, lines[1..])
  }

  /** A line that does not come through is the end of the stream, or one that the buffer cannot hold. */
  lemma LastScan(b: Bytes)
    ensures NEWLINE !in b && |b| < BUFFER_SIZE ==> BufferedLines(b) == [] && Fits(b)
    ensures |b| >= BUFFER_SIZE && NEWLINE !in b[..BUFFER_SIZE] ==> BufferedLines(b) == [] && !Fits(b)
  {
    var i := IndexByte(b, NEWLINE);
    if 0 <= i < BUFFER_SIZE <= |b| {
      assert b[..BUFFER_SIZE][i] == NEWLINE;
    }
  }

  /** What Decode makes of a stream: the decoding of its first line and the rest, or why there is no such line. */
  ghost predicate Decodes(ft: FloatText, stream: Bytes, d: Option<Decoding>, rest: Bytes, full: bool) {
    match d
    case None => BufferedLines(stream) == [] && (full <==> !Fits(stream))
    case Some(x) =>
      && |rest| < |stream|
      && Decodings(ft, BufferedLines(stream)) == [x] + Decodings(ft, BufferedLines(rest))
      && (Fits(stream) <==> Fits(rest))
  }

  lemma TakeLine(b: Bytes, i: nat, rest: Bytes)
    requires i < |b| && b[i] == NEWLINE
    ensures b + rest == b[..i] + [NEWLINE] + (b[i + 1..] + rest)
  {
    assert b == b[..i] + [NEWLINE] + b[i + 1..];
    ConcatAssoc(b[..i] + [NEWLINE], b[i + 1..], rest);
  }

  lemma LineThenRest(line: Bytes, rest: Bytes)
    requires NEWLINE !in line
    ensures var b := line + [NEWLINE] + rest;
            IndexByte(b, NEWLINE) == |line| && b[..|line|] == line && b[|line| + 1..] == rest
  {
    var b := line + [NEWLINE] + rest;
    assert b[..|line|] == line;
    IndexByteIs(b, NEWLINE, |line|);
  }

  ghost predicate OneLineEach(lines: seq<Bytes>) {
    forall i :: 0 <= i < |lines| ==> NEWLINE !in lines[i]
  }

  lemma {:induction false} ScannedLines(b: Bytes)
    ensures OneLineEach(ScanLines(b))
    decreases |b|
  {
    var i := IndexByte(b, NEWLINE);
    if i >= 0 {
      ScannedLines(b[i + 1..]);
    }
  }

  /**
   Where the decoder stands within a line: nothing was read of it; or the next put was taken, buffered and buf
   together are its line, and the commands before it are answered.
   */
  ghost predicate Within(lines0: seq<Bytes>, replies0: seq<Reply>, buffered: Bytes, buf: Bytes, lines: seq<Bytes>,
                         replies: seq<Reply>) {
    || (buffered == [] && buf == [] && lines == lines0 && replies == replies0)
    || (HasTaken(lines0, buffered + buf, lines) && AnsweredTo(lines0, replies0, NextPut(lines0), replies))
  }

  /** What one scan hears: the line of the next put, and no more; or one too long for the buffer; or the end. */
  ghost predicate Hears(lines0: seq<Bytes>, replies0: seq<Reply>, s: Scan, lines: seq<Bytes>, replies: seq<Reply>) {
    var j := NextPut(lines0);
    && AnsweredTo(lines0, replies0, j, replies)
    && match s
       case Eof => j == |lines0|
       case BufferFull => j < |lines0| && |PutText(lines0[j])| >= BUFFER_SIZE
       case Line(line) => j < |lines0| && line == PutText(lines0[j]) && lines == lines0[j + 1..]
  }

  lemma HeardLine(lines0: seq<Bytes>, replies0: seq<Reply>, buffered: Bytes, buf: Bytes, lines: seq<Bytes>,
                  replies: seq<Reply>, i: nat)
    requires OneLineEach(lines0) && Within(lines0, replies0, buffered, buf, lines, replies)
    requires i < |buffered| && buffered[i] == NEWLINE
    ensures buffered[i + 1..] == [] && buf == [] && OneLineEach(lines)
    ensures Hears(lines0, replies0, Line(buffered[..i]), lines, replies)
  {
    var text := PutText(lines0[NextPut(lines0)]);
    assert NEWLINE !in text;
    EndsOnce(buffered, buf, text, i);
  }

  lemma EndsOnce(buffered: Bytes, buf: Bytes, text: Bytes, i: nat)
    requires buffered + buf == text + [NEWLINE] && NEWLINE !in text && i < |buffered| && buffered[i] == NEWLINE
    ensures i == |text| && buffered[..i] == text && buffered[i + 1..] == [] && buf == []
  {
    assert (buffered + buf)[i] == NEWLINE;
    assert i == |text|;
    assert (buffered + buf)[..i] == (text + [NEWLINE])[..i] == text;
  }

  lemma HeardTooLong(lines0: seq<Bytes>, replies0: seq<Reply>, buffered: Bytes, buf: Bytes, lines: seq<Bytes>,
                     replies: seq<Reply>)
    requires Within(lines0, replies0, buffered, buf, lines, replies)
    requires |buffered| == BUFFER_SIZE && NEWLINE !in buffered
    ensures Hears(lines0, replies0, BufferFull, lines, replies)
  {
    var text := PutText(lines0[NextPut(lines0)]);
    EndBuffered(buffered, buf, text);
  }

  /** The newline of a line is buffered once more than the line is. */
  lemma EndBuffered(buffered: Bytes, buf: Bytes, text: Bytes)
    requires buffered + buf == text + [NEWLINE]
    ensures |text| < |buffered| ==> NEWLINE in buffered
  {
    assert (buffered + buf)[|text|] == NEWLINE;
  }

  /** One more read. */
  lemma ReadMore(lines0: seq<Bytes>, replies0: seq<Reply>, buffered: Bytes, buf: Bytes, lines: seq<Bytes>,
                 replies: seq<Reply>, chunk: Bytes, buf': Bytes, lines': seq<Bytes>, replies': seq<Reply>)
    requires Within(lines0, replies0, buffered, buf, lines, replies) && NEWLINE !in buffered
    requires if buf != [] then lines' == lines && replies' == replies && chunk + buf' == buf
             else AnsweredTo(lines, replies, NextPut(lines), replies') && HasTaken(lines, chunk + buf', lines')
    ensures Within(lines0, replies0, buffered + chunk, buf', lines', replies')
  {
    ConcatAssoc(buffered, chunk, buf');
    if buf == [] {
      NothingRead(lines0, replies0, buffered, lines, replies);
      assert [] + (chunk + buf') == chunk + buf';
    }
  }

  lemma NothingRead(lines0: seq<Bytes>, replies0: seq<Reply>, buffered: Bytes, lines: seq<Bytes>, replies: seq<Reply>)
    requires Within(lines0, replies0, buffered, [], lines, replies) && NEWLINE !in buffered
    ensures buffered == [] && lines == lines0 && replies == replies0
  {
    if HasTaken(lines0, buffered + [], lines) {
      EndBuffered(buffered, [], PutText(lines0[NextPut(lines0)]));
    }
  }

  /** What Decode does with the lines: the next put is decoded, and what comes before it is answered. */
  ghost predicate Handles(ft: FloatText, lines0: seq<Bytes>, replies0: seq<Reply>, d: Option<Decoding>, full: bool,
                          lines: seq<Bytes>, replies: seq<Reply>) {
    var j := NextPut(lines0);
    && AnsweredTo(lines0, replies0, j, replies)
    && match d
       case None => if full then j < |lines0| && |PutText(lines0[j])| >= BUFFER_SIZE else j == |lines0|
       case Some(x) =>
         && j < |lines0| && |PutText(lines0[j])| < BUFFER_SIZE && x == Unmarshal(ft, PutText(lines0[j]))
         && lines == lines0[j + 1..]
  }

  class Decoder {
    const r: ProtocolReader
    var buffered: Bytes

    /** Between two lines: nothing of a line was read ahead. */
    ghost predicate Between()
      reads this, r
    {
      buffered == [] && r.buf == [] && OneLineEach(r.lines)
    }

    /** The stream as the decoder will see it. */
    function Stream(): Bytes
      reads this, r
    {
      buffered + r.Pending()
    }

    constructor (r: ProtocolReader)
      ensures this.r == r && Stream() == r.Pending() && buffered == []
    {
      this.r := r;
      buffered := [];
    }

    /**
     The next line, read through a buffer of 4096 bytes that every read fills by however much it likes.
     */
    method ScanLine() returns (s: Scan)
      requires |buffered| <= BUFFER_SIZE
      modifies this, r
      ensures |buffered| <= BUFFER_SIZE
      ensures old(Between()) ==> Hears(old(r.lines), old(r.replies), s, r.lines, r.replies)
      ensures old(Between()) && s.Line? ==> Between()
      ensures r.AllReplies() == old(r.AllReplies()) && Complaints(r.replies) == old(Complaints(r.replies))
      ensures s.Line? ==> NEWLINE !in s.line && |s.line| < BUFFER_SIZE && old(Stream()) == s.line + [NEWLINE] + Stream()
      ensures s.Eof? ==> NEWLINE !in old(Stream()) && |old(Stream())| < BUFFER_SIZE && r.lines == []
      ensures s.BufferFull? ==> |old(Stream())| >= BUFFER_SIZE && NEWLINE !in old(Stream())[..BUFFER_SIZE]
    {
      ghost var lines0, replies0 := r.lines, r.replies;
      while true
        invariant |buffered| <= BUFFER_SIZE && Stream() == old(Stream())
        invariant old(Between()) ==> Within(lines0, replies0, buffered, r.buf, r.lines, r.replies)
        invariant r.AllReplies() == old(r.AllReplies()) && Complaints(r.replies) == old(Complaints(r.replies))
        decreases |r.Pending()|
      {
        var i := IndexByte(buffered, NEWLINE);
        if i != -1 {
          var line := buffered[..i];
          if old(Between()) {
            HeardLine(lines0, replies0, buffered, r.buf, r.lines, r.replies, i);
          }
          TakeLine(buffered, i, r.Pending());
          buffered := buffered[i + 1..];
          return Line(line);
        }
        if |buffered| == BUFFER_SIZE {
          assert old(Stream())[..BUFFER_SIZE] == buffered;
          if old(Between()) {
            HeardTooLong(lines0, replies0, buffered, r.buf, r.lines, r.replies);
          }
          return BufferFull;
        }
        var size :| 1 <= size <= BUFFER_SIZE - |buffered|;
        var chunk := new byte[size];
        ghost var buf, lines, replies := r.buf, r.lines, r.replies;
        var n, eof := r.Read(chunk);
        ConcatAssoc(buffered, chunk[..n], r.Pending());
        if eof {
          assert buffered + [] == buffered;
          if old(Between()) {
            NothingRead(lines0, replies0, buffered, lines, replies);
          }
          return Eof;
        }
        if old(Between()) {
          ReadMore(lines0, replies0, buffered, buf, lines, replies, chunk[..n], r.buf, r.lines, r.replies);
        }
        buffered := buffered + chunk[..n];
      }
    }

    /** Decode: one line, made a point or refused; or the end of the stream, or a line that overflows the buffer. */
    method Decode(ft: FloatText) returns (d: Option<Decoding>, full: bool)
      requires |buffered| <= BUFFER_SIZE
      modifies this, r
      ensures |buffered| <= BUFFER_SIZE
      ensures r.AllReplies() == old(r.AllReplies()) && Complaints(r.replies) == old(Complaints(r.replies))
      ensures Decodes(ft, old(Stream()), d, Stream(), full) && (d.None? && !full ==> r.lines == [])
      ensures old(Between()) ==> Handles(ft, old(r.lines), old(r.replies), d, full, r.lines, r.replies)
      ensures old(Between()) && d.Some? ==> Between()
    {
      ghost var stream := Stream();
      var s := ScanLine();
      if !s.Line? {
        LastScan(stream);
        return None, s.BufferFull?;
      }
      LineThenRest(s.line, Stream());
      var p := new Point(Datum(0, Int(0), [], []));
      var err := UnmarshalText(ft, p, s.line);
      d, full := Some(if err == None then Decoded(p.Contents()) else Malformed(err.value)), false;
    }
  }

  // ---- The connection loop -----------------------------------------------------------------------------

  /** The whole conversation: what is written back for the lines of a connection, one after the other. */
  function Talk(ft: FloatText, lines: seq<Bytes>): seq<Reply> {
    if lines == [] then []
    else if !IsPut(lines[0]) then
      [if lines[0] == VERSION then BuiltOn else InvalidCommand] + Talk(ft, lines[1..])
    else if |PutText(lines[0])| >= BUFFER_SIZE then []
    else Rejoinder(Unmarshal(ft, PutText(lines[0]))) + Talk(ft, lines[1..])
  }

  function Rejoinder(d: Decoding): seq<Reply> { if d.Malformed? then [InvalidSyntax] else [] }

  /** What is written up to the next put, and for it. */
  lemma {:induction false} TalkUpTo(ft: FloatText, lines: seq<Bytes>)
    ensures Talk(ft, lines) == Replies(lines[..NextPut(lines)]) + TalkFrom(ft, lines[NextPut(lines)..])
  {
    if lines == [] || IsPut(lines[0]) {
      assert lines[..0] == [] && lines[0..] == lines && Replies([]) == [];
      assert Talk(ft, lines) == TalkFrom(ft, lines);
    } else {
      TalkUpTo(ft, lines[1..]);
      AnsweredFirst(lines, NextPut(lines));
      ConcatAssoc([if lines[0] == VERSION then BuiltOn else InvalidCommand], Replies(lines[1..][..NextPut(lines) - 1]),
                  TalkFrom(ft, lines[NextPut(lines)..]));
    }
  }

  function TalkFrom(ft: FloatText, lines: seq<Bytes>): seq<Reply>
    requires lines != [] ==> IsPut(lines[0])
  {
    if lines == [] || |PutText(lines[0])| >= BUFFER_SIZE then []
    else Rejoinder(Unmarshal(ft, PutText(lines[0]))) + Talk(ft, lines[1..])
  }

  lemma AnsweredFirst(lines: seq<Bytes>, j: nat)
    requires 0 < j <= |lines| && !IsPut(lines[0])
    ensures Replies(lines[..j])
         == [if lines[0] == VERSION then BuiltOn else InvalidCommand] + Replies(lines[1..][..j - 1])
    ensures lines[1..][j - 1..] == lines[j..]
  {
    assert lines[..j][1..] == lines[1..][..j - 1];
  }

  /** The replies so far, and those for the lines left, are the whole conversation. */
  ghost predicate Talking(ft: FloatText, all: seq<Reply>, replies: seq<Reply>, lines: seq<Bytes>) {
    replies + Talk(ft, lines) == all
  }

  lemma TalkStep(ft: FloatText, all: seq<Reply>, lines0: seq<Bytes>, replies0: seq<Reply>, d: Option<Decoding>,
                 full: bool, lines: seq<Bytes>, replies: seq<Reply>)
    requires Talking(ft, all, replies0, lines0) && Handles(ft, lines0, replies0, d, full, lines, replies)
    ensures if d.Some? then Talking(ft, all, replies + Rejoinder(d.value), lines) else replies == all
  {
    var j := NextPut(lines0);
    TalkUpTo(ft, lines0);
    if j < |lines0| {
      assert lines0[j..][0] == lines0[j] && lines0[j..][1..] == lines0[j + 1..];
    }
    if d.Some? {
      ConcatAssoc(replies0, Replies(lines0[..j]), Rejoinder(d.value) + Talk(ft, lines));
      ConcatAssoc(replies, Rejoinder(d.value), Talk(ft, lines));
    } else {
      assert Replies(lines0[..j]) + [] == Replies(lines0[..j]);
    }
  }

  /** The one reply that a line calls for, if any. */
  ghost predicate CallsFor(ft: FloatText, line: Bytes, r: Reply) {
    match r
    case BuiltOn => line == VERSION
    case InvalidCommand => line != VERSION && !(PUT <= line)
    case InvalidSyntax => PUT <= line && Unmarshal(ft, line[|PUT|..]).Malformed?
  }

  ghost function CallingFor(ft: FloatText, lines: seq<Bytes>, r: Reply): nat {
    if lines == [] then 0 else (if CallsFor(ft, lines[0], r) then 1 else 0) + CallingFor(ft, lines[1..], r)
  }

  function ReplyTo(ft: FloatText, line: Bytes): seq<Reply> {
    if line == VERSION then [BuiltOn]
    else if IsPut(line) then Rejoinder(Unmarshal(ft, PutText(line)))
    else [InvalidCommand]
  }

  lemma TalkOne(ft: FloatText, lines: seq<Bytes>)
    requires lines != [] && |lines[0]| < |PUT| + BUFFER_SIZE
    ensures Talk(ft, lines) == ReplyTo(ft, lines[0]) + Talk(ft, lines[1..])
  {
  }

  lemma ReplyIsCalledFor(ft: FloatText, line: Bytes, r: Reply)
    ensures multiset(ReplyTo(ft, line))[r] == if CallsFor(ft, line, r) then 1 else 0
  {
    assert PUT[0] != VERSION[0];
  }

  /** No reply is left out or made up: each kind is sent as often as lines call for it, if no line is too long. */
  lemma {:induction false} EveryLineIsAnswered(ft: FloatText, lines: seq<Bytes>, r: Reply)
    requires forall i :: 0 <= i < |lines| ==> |lines[i]| < |PUT| + BUFFER_SIZE
    ensures multiset(Talk(ft, lines))[r] == CallingFor(ft, lines, r)
  {
    if lines != [] {
      TalkOne(ft, lines);
      ReplyIsCalledFor(ft, lines[0], r);
      EveryLineIsAnswered(ft, lines[1..], r);
    }
  }

  /** How many lines had a syntax error. */
  function Errors(ds: seq<Decoding>): nat {
    if ds == [] then 0 else Errors(ds[..|ds| - 1]) + if ds[|ds| - 1].Malformed? then 1 else 0
  }

  lemma OneMoreError(ds: seq<Decoding>, d: Decoding)
    ensures Errors(ds + [d]) == Errors(ds) + if d.Malformed? then 1 else 0
  {
    assert (ds + [d])[..|ds|] == ds;
  }

  /** What becomes of the put lines, and whether some line is too long. */
  ghost predicate ServedAll(ft: FloatText, all: Bytes, results: seq<Decoding>, full: bool) {
    results == Decodings(ft, BufferedLines(all)) && (full <==> !Fits(all))
  }

  /** Where the connection loop stands: results are decoded and complained about, stream is still to come. */
  ghost predicate Serving(ft: FloatText, all: Bytes, results: seq<Decoding>, stream: Bytes, complaints: nat) {
    && results + Decodings(ft, BufferedLines(stream)) == Decodings(ft, BufferedLines(all))
    && (Fits(all) <==> Fits(stream))
    && complaints == Errors(results)
  }

  lemma ServeStart(ft: FloatText, all: Bytes)
    ensures Serving(ft, all, [], all, 0)
  {
    assert [] + Decodings(ft, BufferedLines(all)) == Decodings(ft, BufferedLines(all));
  }

  lemma ServeStep(ft: FloatText, all: Bytes, results: seq<Decoding>, stream: Bytes, complaints: nat,
                  d: Option<Decoding>, rest: Bytes, full: bool)
    requires Serving(ft, all, results, stream, complaints) && Decodes(ft, stream, d, rest, full)
    ensures if d.Some? then
              Serving(ft, all, results + [d.value], rest, complaints + if d.value.Malformed? then 1 else 0)
            else ServedAll(ft, all, results, full) && complaints == Errors(results)
    ensures d.Some? ==> |rest| < |stream|
  {
    if d.Some? {
      OneMoreError(results, d.value);
      ConcatAssoc(results, [d.value], Decodings(ft, BufferedLines(rest)));
    } else {
      assert results + [] == results;
    }
  }

  /** One round of the loop. */
  method ServeOne(ft: FloatText, dec: Decoder, ghost all: Bytes, ghost results: seq<Decoding>, ghost talk: seq<Reply>)
    returns (d: Option<Decoding>, full: bool)
    requires |dec.buffered| <= BUFFER_SIZE
    requires Serving(ft, all, results, dec.Stream(), Complaints(dec.r.replies))
    requires dec.Between() && Talking(ft, talk, dec.r.replies, dec.r.lines)
    modifies dec, dec.r
    ensures if d.Some? then dec.Between() && Talking(ft, talk, dec.r.replies, dec.r.lines) else dec.r.replies == talk
    ensures |dec.buffered| <= BUFFER_SIZE && dec.r.AllReplies() == old(dec.r.AllReplies())
    ensures d.Some? ==> Serving(ft, all, results + [d.value], dec.Stream(), Complaints(dec.r.replies))
                        && |dec.Stream()| < |old(dec.Stream())|
    ensures d.None? ==> ServedAll(ft, all, results, full) && Complaints(dec.r.replies) == Errors(results)
                        && (!full ==> dec.r.lines == [])
  {
    ghost var stream, complaints := dec.Stream(), Complaints(dec.r.replies);
    ghost var lines, replies := dec.r.lines, dec.r.replies;
    d, full := dec.Decode(ft);
    ghost var rest := dec.Stream();
    TalkStep(ft, talk, lines, replies, d, full, dec.r.lines, dec.r.replies);
    ServeStep(ft, all, results, stream, complaints, d, rest, full);
    if d.Some? {
      dec.r.Answer(d.value);
      assert dec.Stream() == rest;
    }
  }

  /**
   The connection loop: decodes until the stream ends, complaining about syntax errors and going on. Whatever the
   chunk sizes, it decodes exactly the put lines, in order, and writes back line by line what is called for, in that
   order: a complaint for a put that is malformed, an answer to a version request, a complaint for anything else. It
   ends early with a full buffer if and only if some line is too long for it.
   */
  method Serve(ft: FloatText, input: Bytes) returns (results: seq<Decoding>, replies: seq<Reply>, full: bool)
    ensures ServedAll(ft, PutBytes(ScanLines(input)), results, full)
    ensures replies == Talk(ft, ScanLines(input))
    ensures Answers(replies) <= Replies(ScanLines(input))
    ensures !full ==> Answers(replies) == Replies(ScanLines(input))
    ensures Complaints(replies) == Errors(results)
  {
    var r := new ProtocolReader(input);
    var dec := new Decoder(r);
    ghost var all, answers := dec.Stream(), r.AllReplies();
    ghost var talk := Talk(ft, ScanLines(input));
    ServeStart(ft, all);
    ScannedLines(input);
    results := [];
    while true
      invariant dec.r == r && |dec.buffered| <= BUFFER_SIZE && r.AllReplies() == answers
      invariant Serving(ft, all, results, dec.Stream(), Complaints(r.replies))
      invariant dec.Between() && Talking(ft, talk, r.replies, r.lines)
      decreases |dec.Stream()|
    {
      var d;
      d, full := ServeOne(ft, dec, all, results, talk);
      if d.None? {
        return results, r.replies, full;
      }
      results := results + [d.value];
    }
  }
}
