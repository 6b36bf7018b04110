/** The text form of points: printer, parser, and exactly when they undo each other. */
module Codec {
  import opened Bytes
  import opened Collections
  import opened Points
  import opened TagBlocks
  import opened Decimal

  const MAX_LINE_LENGTH: nat := 1023

  /** Go's strconv for float32, which is foreign: what AppendFloat prints and what ParseFloat accepts. */
  datatype FloatText = FloatText(finite: real -> bool, format: real -> Bytes, parse: Bytes -> Option<real>)

  function WithDot(b: Bytes): Bytes { if DOT in b then b else b + [DOT, ZERO] }

  /** The laws of strconv: finite floats read back, and their text is a word of a line. */
  ghost predicate Lawful(ft: FloatText) {
    && (forall x :: ft.finite(x) ==>
          && ft.parse(WithDot(ft.format(x))) == Some(x)
          && ft.format(x) != []
          && (forall i :: 0 <= i < |ft.format(x)| ==> !IsSpace(ft.format(x)[i]))
          && NEWLINE !in ft.format(x) && CARRIAGE_RETURN !in ft.format(x))
    && (forall b :: ft.parse(b).Some? ==> ft.finite(ft.parse(b).value))
  }

  predicate IsSpace(c: byte) { c == SPACE || c == TAB }

  datatype DecodeError =
    | EmptyLine
    | LineTooLong
    | InvalidMetric
    | InvalidTime
    | InvalidValue
    | InvalidTags(error: TagError)

  datatype Decoding = Decoded(point: Datum) | Malformed(error: DecodeError)

  // ---- Words -------------------------------------------------------------------------------------------

  /** Where the first word of b ends. */
  function WordEnd(b: Bytes, from: nat := 0): (e: nat)
    requires from <= |b|
    ensures from <= e <= |b|
    ensures forall j :: from <= j < e ==> !IsSpace(b[j])
    ensures e < |b| ==> IsSpace(b[e])
    decreases |b| - from
  {
    if from == |b| || IsSpace(b[from]) then from else WordEnd(b, from + 1)
  }

  /** Where the first run of spaces of b ends. */
  function GapEnd(b: Bytes, from: nat := 0): (e: nat)
    requires from <= |b|
    ensures from <= e <= |b|
    ensures forall j :: from <= j < e ==> IsSpace(b[j])
    ensures e < |b| ==> !IsSpace(b[e])
    decreases |b| - from
  {
    if from == |b| || !IsSpace(b[from]) then from else GapEnd(b, from + 1)
  }

  function Word(b: Bytes): Bytes { b[..WordEnd(b)] }

  function AfterWord(b: Bytes): Bytes { b[WordEnd(b)..] }

  function AfterGap(b: Bytes): Bytes { b[GapEnd(b)..] }

  method SkipSpace(b: Bytes) returns (r: Bytes)
    ensures r == AfterGap(b)
  {
    for i := 0 to |b|
      invariant GapEnd(b, 0) == GapEnd(b, i)
    {
      if !IsSpace(b[i]) {
        return b[i..];
      }
    }
    return b[|b|..];
  }

  method SkipNonSpace(b: Bytes) returns (word: Bytes, left: Bytes)
    ensures word == Word(b) && left == AfterWord(b)
  {
    for i := 0 to |b|
      invariant WordEnd(b, 0) == WordEnd(b, i)
    {
      if IsSpace(b[i]) {
        return b[..i], b[i..];
      }
    }
    assert b[|b|..] == b[..0];
    return b[..], b[..0];
  }

  lemma WordOf(w: Bytes, rest: Bytes)
    requires forall i :: 0 <= i < |w| ==> !IsSpace(w[i])
    requires rest == [] || IsSpace(rest[0])
    ensures Word(w + rest) == w && AfterWord(w + rest) == rest
  {
    var b, e := w + rest, WordEnd(w + rest);
    assert forall i :: 0 <= i < |w| ==> !IsSpace(b[i]);
    assert rest != [] ==> b[|w|] == rest[0];
    assert e == |w|;
  }

  lemma GapOf(rest: Bytes)
    requires rest == [] || !IsSpace(rest[0])
    ensures AfterGap([SPACE] + rest) == rest
  {
    var b := [SPACE] + rest;
    assert b[0] == SPACE && (rest != [] ==> b[1] == rest[0]);
    assert GapEnd(b) == 1;
  }

  // ---- Time and value ----------------------------------------------------------------------------------

  /** Rounds a time down to the whole second, as time.Truncate does, in 64-bit nanoseconds. */
  function TruncateTime(n: int): int { Wrap64(n - n % SECOND) }

  function TimeScale(b: Bytes): int { if |b| == 13 then 1_000_000 else SECOND }

  /** Seconds, or thirteen digits of milliseconds, as the nanoseconds of a point. */
  function ParseTime(b: Bytes): Option<int> {
    if !(|b| > 0 && (|b| <= 10 || |b| == 13)) || !AllDigits(b) then None
    else Some(TruncateTime(Wrap64(Wrap64(Dec(b)) * TimeScale(b))))
  }

  method ParseTimeLoop(b: Bytes) returns (r: Option<int>)
    ensures r == ParseTime(b)
  {
    if !(|b| > 0 && (|b| <= 10 || |b| == 13)) {
      return None;
    }
    var ok, n := ReadDigits(b);
    if !ok {
      return None;
    }
    if |b| == 13 {
      n := Wrap64(n * 1_000_000);
    } else {
      n := Wrap64(n * SECOND);
    }
    return Some(TruncateTime(n));
  }

  function ValueText(ft: FloatText, v: Value): Bytes
    requires v.Int? ==> IsInt64(v.n)
  {
    match v
    case Int(n) => FormatInt(n)
    case Float(x) => WithDot(ft.format(x))
  }

  function ParseValue(ft: FloatText, b: Bytes): Option<Value> {
    if DOT in b then
      match ft.parse(b)
      case None => None
      case Some(x) => Some(Float(x))
    else
      match ParseInt(b)
      case None => None
      case Some(n) => Some(Int(n))
  }

  // ---- Printing ----------------------------------------------------------------------------------------

  predicate InRange(ft: FloatText, d: Datum) {
    IsInt64(d.time) && match d.value case Int(n) => IsInt64(n) case Float(x) => ft.finite(x)
  }

  function Append(ft: FloatText, d: Datum): Bytes
    requires InRange(ft, d)
  {
    d.metric + ([SPACE] + (FormatInt(QuoTrunc(d.time, SECOND)) + ([SPACE] + (ValueText(ft, d.value) + d.tags))))
  }

  method AppendPoint(ft: FloatText, p: Point, buf: Bytes) returns (b: Bytes)
    requires InRange(ft, p.Contents())
    ensures b == buf + Append(ft, p.Contents())
  {
    b := buf + p.metric;
    b := b + [SPACE];
    b := AppendInt(b, QuoTrunc(p.time, SECOND));
    b := b + [SPACE];
    if p.isFloat {
      b := b + WithDot(ft.format(p.valueFloat));
    } else {
      b := AppendInt(b, p.valueInt);
    }
    b := b + p.tags;
    AppendGroups(buf, p.metric, FormatInt(QuoTrunc(p.time, SECOND)), ValueText(ft, p.Value()), p.tags);
  }

  lemma AppendGroups(buf: Bytes, m: Bytes, t: Bytes, v: Bytes, tags: Bytes)
    ensures buf + m + [SPACE] + t + [SPACE] + v + tags
         == buf + (m + ([SPACE] + (t + ([SPACE] + (v + tags)))))
  {
    var a := buf + m;
    ConcatAssoc(buf, m, [SPACE] + (t + ([SPACE] + (v + tags))));
    ConcatAssoc(a, [SPACE], t + ([SPACE] + (v + tags)));
    ConcatAssoc(a + [SPACE], t, [SPACE] + (v + tags));
    ConcatAssoc(a + [SPACE] + t, [SPACE], v + tags);
    ConcatAssoc(a + [SPACE] + t + [SPACE], v, tags);
  }

  // ---- Parsing -----------------------------------------------------------------------------------------

  /** The tags of a line, after those already seen. */
  function ParseTags(b: Bytes, seen: seq<Tag> := []): TagResult
    decreases |b|
  {
    var s := AfterGap(b);
    if s == [] then
      if |seen| > MAX_TAGS then TagFailure(TooManyTags) else Tagged(seen)
    else
      var tag := Word(s);
      var i := IndexByte(tag, EQUALS);
      if i == -1 then TagFailure(TruncatedTags)
      else
        var t := Tag(tag[..i], tag[i + 1..]);
        if !ValidTag(t) then TagFailure(InvalidTag)
        else if KeyIn(seen, t.k) then TagFailure(DuplicateKey)
        else ParseTags(AfterWord(s), seen + [t])
  }

  function TimeField(b: Bytes): Bytes { Word(AfterGap(AfterWord(b))) }

  function AfterTime(b: Bytes): Bytes { AfterWord(AfterGap(AfterWord(b))) }

  function ValueField(b: Bytes): Bytes { Word(AfterGap(AfterTime(b))) }

  function TagsField(b: Bytes): Bytes { AfterWord(AfterGap(AfterTime(b))) }

  /** What unmarshalText makes of a line. */
  function Unmarshal(ft: FloatText, b: Bytes): Decoding {
    if |b| == 0 then Malformed(EmptyLine)
    else if |b| > MAX_LINE_LENGTH then Malformed(LineTooLong)
    else Assemble(ft, Word(b), TimeField(b), ValueField(b), TagsField(b))
  }

  /** The first invalid field decides the error. */
  function Assemble(ft: FloatText, metric: Bytes, time: Bytes, value: Bytes, tags: Bytes): Decoding {
    if !ValidText(metric) then Malformed(InvalidMetric)
    else if ParseTime(time).None? then Malformed(InvalidTime)
    else if ParseValue(ft, value).None? then Malformed(InvalidValue)
    else match ParseTags(tags)
      case TagFailure(e) => Malformed(InvalidTags(e))
      case Tagged(ts) => Decoded(Datum(ParseTime(time).value, ParseValue(ft, value).value, metric, Block(ts)))
  }

  /** Parses a line into the point. After an error the point is left half written and its user drops it. */
  method UnmarshalText(ft: FloatText, p: Point, buf0: Bytes) returns (err: Option<DecodeError>)
    modifies p
    ensures Unmarshal(ft, buf0) == if err == None then Decoded(p.Contents()) else Malformed(err.value)
  {
    if |buf0| == 0 {
      return Some(EmptyLine);
    }
    if |buf0| > MAX_LINE_LENGTH {
      return Some(LineTooLong);
    }
    p.metric, p.tags, p.isFloat := [], [], false;
    err := UnmarshalFields(ft, p, buf0);
  }

  /** The fields of a line, one after the other. */
  method UnmarshalFields(ft: FloatText, p: Point, buf0: Bytes) returns (err: Option<DecodeError>)
    modifies p
    ensures var r := Assemble(ft, Word(buf0), TimeField(buf0), ValueField(buf0), TagsField(buf0));
            if err == None then r == Decoded(p.Contents()) else r == Malformed(err.value)
  {
    var metric, buf := SkipNonSpace(buf0);
    if !ValidText(metric) {
      return Some(InvalidMetric);
    }
    p.metric := metric;
    buf := SkipSpace(buf);
    var timeText;
    timeText, buf := SkipNonSpace(buf);
    assert timeText == TimeField(buf0) && buf == AfterTime(buf0);
    var time := ParseTimeLoop(timeText);
    if time.None? {
      return Some(InvalidTime);
    }
    p.time := time.value;
    buf := SkipSpace(buf);
    var valueText;
    valueText, buf := SkipNonSpace(buf);
    assert valueText == ValueField(buf0) && buf == TagsField(buf0);
    var value := ParseValueBytes(ft, valueText);
    if value.None? {
      return Some(InvalidValue);
    }
    p.SetValueValid(value.value);
    var tagErr := SetTagsFromText(p, buf);
    if tagErr.Some? {
      return Some(InvalidTags(tagErr.value));
    }
    assert p.Value() == value.value;
    return None;
  }

  method ParseValueBytes(ft: FloatText, b: Bytes) returns (r: Option<Value>)
    ensures r == ParseValue(ft, b)
  {
    if IndexByte(b, DOT) != -1 {
      var x := ft.parse(b);
      return if x.None? then None else Some(Float(x.value));
    }
    var n := ParseIntLoop(b);
    return if n.None? then None else Some(Int(n.value));
  }

  method SetTagsFromText(p: Point, buf0: Bytes) returns (err: Option<TagError>)
    modifies p`tags
    ensures match ParseTags(buf0)
            case Tagged(ts) => err == None && p.tags == Block(ts)
            case TagFailure(e) => err == Some(e) && p.tags == old(p.tags)
  {
    var seen: seq<Bytes> := [];
    var tags, buf: Bytes := [], buf0;
    ghost var ts: seq<Tag> := [];
    while true
      invariant p.tags == old(p.tags)
      invariant ParseTags(buf0) == ParseTags(buf, ts)
      invariant tags == Block(ts) && KeysOf(seen, ts)
      decreases |buf|
    {
      buf := SkipSpace(buf);
      if |buf| == 0 {
        break;
      }
      var tag;
      tag, buf := SkipNonSpace(buf);
      var i := IndexByte(tag, EQUALS);
      if i == -1 {
        return Some(TruncatedTags);
      }
      var k, v := tag[..i], tag[i + 1..];
      if !ValidTag(Tag(k, v)) {
        return Some(InvalidTag);
      }
      KeyInIs(ts, k);
      if k in seen {
        assert HasKey(ts, k);
        return Some(DuplicateKey);
      }
      assert !HasKey(ts, k);
      BlockSnoc(ts, Tag(k, v));
      seen := seen + [k];
      tags := tags + [SPACE] + k + [EQUALS] + v;
      ts := ts + [Tag(k, v)];
    }
    if |seen| > MAX_TAGS {
      return Some(TooManyTags);
    }
    p.tags := tags;
    return None;
  }
}
