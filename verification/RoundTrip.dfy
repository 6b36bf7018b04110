/** Exactly when the parser undoes the printer, and the printer the parser. */
module RoundTrip {
  import opened Bytes
  import opened Collections
  import opened Points
  import opened TagBlocks
  import opened Decimal
  import opened Codec

  /** A point as the rest of the program may hold it: a valid metric and a well-formed tag block. */
  ghost predicate ValidAs(ft: FloatText, d: Datum, ts: seq<Tag>) {
    && InRange(ft, d)
    && ValidText(d.metric)
    && WellFormed(ts) && |ts| <= MAX_TAGS && d.tags == Block(ts)
  }

  ghost predicate Valid(ft: FloatText, d: Datum) {
    exists ts :: ValidAs(ft, d, ts)
  }

  /** A whole number of seconds after the epoch. */
  predicate OnSecond(time: int) { 0 <= time && time % SECOND == 0 }

  /** The points that survive the text form: whole seconds from the epoch, no least int64, a line that fits. */
  predicate Printable(ft: FloatText, d: Datum)
    requires InRange(ft, d)
  {
    && OnSecond(d.time)
    && d.value != Int(MIN_INT64)
    && |Append(ft, d)| <= MAX_LINE_LENGTH
  }

  // ---- Fields of a printed point -----------------------------------------------------------------------

  lemma TextIsWord(b: Bytes)
    requires ValidText(b)
    ensures forall i :: 0 <= i < |b| ==> !IsSpace(b[i])
  {
  }

  lemma ValueTextIsWord(ft: FloatText, v: Value)
    requires Lawful(ft)
    requires match v case Int(n) => IsInt64(n) case Float(x) => ft.finite(x)
    ensures var b := ValueText(ft, v);
            b != [] && (forall i :: 0 <= i < |b| ==> !IsSpace(b[i])) && NEWLINE !in b && CARRIAGE_RETURN !in b
  {
    if v.Int? {
      FormatIntShape(v.n);
    }
  }

  lemma PrintedFields(ft: FloatText, d: Datum, ts: seq<Tag>)
    requires Lawful(ft) && ValidAs(ft, d, ts)
    ensures var b := Append(ft, d);
            && Word(b) == d.metric
            && TimeField(b) == FormatInt(QuoTrunc(d.time, SECOND))
            && ValueField(b) == ValueText(ft, d.value)
            && TagsField(b) == d.tags
  {
    var time, value := FormatInt(QuoTrunc(d.time, SECOND)), ValueText(ft, d.value);
    var afterTime := [SPACE] + (value + d.tags);
    var afterMetric := [SPACE] + (time + afterTime);
    TextIsWord(d.metric);
    ValueTextIsWord(ft, d.value);
    FormatIntShape(QuoTrunc(d.time, SECOND));
    BlockStart(ts);
    WordOf(d.metric, afterMetric);
    GapOf(time + afterTime);
    WordOf(time, afterTime);
    GapOf(value + d.tags);
    WordOf(value, d.tags);
  }

  // ---- Tags --------------------------------------------------------------------------------------------

  lemma FirstTagField(t: Tag, rest: seq<Tag>)
    requires ValidTag(t)
    ensures var b := Block([t] + rest);
            var s := AfterGap(b);
            && s != [] && Word(s) == TagText(t) && AfterWord(s) == Block(rest)
            && IndexByte(TagText(t), EQUALS) == |t.k|
            && TagText(t)[..|t.k|] == t.k && TagText(t)[|t.k| + 1..] == t.v
  {
    ValidIsPlain(t);
    assert ([t] + rest)[1..] == rest;
    ConcatAssoc([SPACE], TagText(t), Block(rest));
    BlockStart(rest);
    assert forall i :: 0 <= i < |TagText(t)| ==> !IsSpace(TagText(t)[i]);
    GapOf(TagText(t) + Block(rest));
    WordOf(TagText(t), Block(rest));
    assert TagText(t)[..|t.k|] == t.k;
    IndexByteIs(TagText(t), EQUALS, |t.k|);
  }

  /** Parsing a block gives back the tags it was printed from. */
  lemma {:induction false} ParseTagsOfBlock(ts: seq<Tag>, seen: seq<Tag>)
    requires WellFormed(seen + ts)
    ensures ParseTags(Block(ts), seen)
         == if |seen + ts| > MAX_TAGS then TagFailure(TooManyTags) else Tagged(seen + ts)
    decreases |ts|
  {
    if ts == [] {
      assert seen + ts == seen;
    } else {
      var t := ts[0];
      HeadTail(ts);
      ConcatAssoc(seen, [t], ts[1..]);
      assert (seen + ts)[|seen|] == t;
      assert forall i :: 0 <= i < |seen| ==> seen[i] == (seen + ts)[i];
      FirstTagField(t, ts[1..]);
      KeyInIs(seen, t.k);
      ParseTagsOfBlock(ts[1..], seen + [t]);
    }
  }

  // ---- Printing, then parsing --------------------------------------------------------------------------

  /** What the parser makes of the printed time: the fraction of a second is lost, earlier times are refused. */
  function ReadTime(time: int): Option<int> {
    if time <= -SECOND then None else if time < 0 then Some(0) else Some(time - time % SECOND)
  }

  /** What the parser makes of the printed value: the least int64 reads back as zero. */
  function ReadValue(v: Value): Value { if v == Int(MIN_INT64) then Int(0) else v }

  lemma TimeReadsBack(time: int)
    requires IsInt64(time)
    ensures ParseTime(FormatInt(QuoTrunc(time, SECOND))) == ReadTime(time)
    ensures ReadTime(time) == Some(time) <==> OnSecond(time)
  {
    var n := QuoTrunc(time, SECOND);
    FormatIntShape(n);
    if n >= 0 {
      assert n < 10_000_000_000 == Pow10(10);
      DigitsLength(n, 10);
      DecOfDigits(n);
      assert n * SECOND <= MAX_INT64;
      if time >= 0 {
        assert n * SECOND == time - time % SECOND;
      }
    }
  }

  lemma ValueReadsBack(ft: FloatText, v: Value)
    requires Lawful(ft)
    requires match v case Int(n) => IsInt64(n) case Float(x) => ft.finite(x)
    ensures ParseValue(ft, ValueText(ft, v)) == Some(ReadValue(v))
  {
    if v.Int? {
      FormatIntShape(v.n);
      IntRoundTrip(v.n);
    } else {
      assert DOT in WithDot(ft.format(v.x)) by {
        assert [DOT, ZERO][0] == DOT;
      }
    }
  }

  /** Parsing a printed point. */
  lemma UnmarshalOfAppend(ft: FloatText, d: Datum, ts: seq<Tag>)
    requires Lawful(ft) && ValidAs(ft, d, ts)
    ensures Unmarshal(ft, Append(ft, d))
         == if |Append(ft, d)| > MAX_LINE_LENGTH then Malformed(LineTooLong)
            else if ReadTime(d.time).None? then Malformed(InvalidTime)
            else Decoded(Datum(ReadTime(d.time).value, ReadValue(d.value), d.metric, d.tags))
  {
    PrintedFields(ft, d, ts);
    assert Append(ft, d) != [];
    AssemblePrinted(ft, d, ts);
  }

  lemma AssemblePrinted(ft: FloatText, d: Datum, ts: seq<Tag>)
    requires Lawful(ft) && ValidAs(ft, d, ts)
    ensures Assemble(ft, d.metric, FormatInt(QuoTrunc(d.time, SECOND)), ValueText(ft, d.value), d.tags)
         == if ReadTime(d.time).None? then Malformed(InvalidTime)
            else Decoded(Datum(ReadTime(d.time).value, ReadValue(d.value), d.metric, d.tags))
  {
    TimeReadsBack(d.time);
    ValueReadsBack(ft, d.value);
    assert [] + ts == ts;
    ParseTagsOfBlock(ts, []);
  }

  /**
   The parser undoes the printer exactly on the printable points, among all valid points with any int64 time
   and any int64 or finite float value.
   */
  lemma RoundTripIff(ft: FloatText, d: Datum)
    requires Lawful(ft) && Valid(ft, d)
    ensures Unmarshal(ft, Append(ft, d)) == Decoded(d) <==> Printable(ft, d)
  {
    var ts :| ValidAs(ft, d, ts);
    UnmarshalOfAppend(ft, d, ts);
    TimeReadsBack(d.time);
  }

  // ---- Parsing, then printing --------------------------------------------------------------------------

  /** Whatever tags are accepted are well formed, at most eight, and no longer than the text they came from. */
  lemma {:induction false} ParsedTags(b: Bytes, seen: seq<Tag>)
    requires WellFormed(seen) && ParseTags(b, seen).Tagged?
    requires b == [] || IsSpace(b[0])
    ensures var r := ParseTags(b, seen).tags;
            WellFormed(r) && |r| <= MAX_TAGS && |Block(r)| <= |Block(seen)| + |b|
    decreases |b|
  {
    var s := AfterGap(b);
    if s != [] {
      var tag, rest := Word(s), AfterWord(s);
      var i := IndexByte(tag, EQUALS);
      var t := Tag(tag[..i], tag[i + 1..]);
      KeyInIs(seen, t.k);
      BlockSnoc(seen, t);
      ParsedTags(rest, seen + [t]);
    }
  }

  /** The fields of an accepted line are disjoint stretches of it. */
  lemma FieldLengths(b: Bytes)
    requires TimeField(b) != [] && ValueField(b) != []
    ensures |Word(b)| + 1 + |TimeField(b)| + 1 + |ValueField(b)| + |TagsField(b)| <= |b|
    ensures TagsField(b) == [] || IsSpace(TagsField(b)[0])
  {
    WordThenGap(b);
    WordThenGap(AfterGap(AfterWord(b)));
    WordThenRest(AfterGap(AfterTime(b)));
  }

  lemma WordThenRest(b: Bytes)
    ensures |Word(b)| + |AfterWord(b)| == |b|
    ensures AfterWord(b) == [] || IsSpace(AfterWord(b)[0])
  {
  }

  /** Between a word and what follows its gap there is at least one space. */
  lemma WordThenGap(b: Bytes)
    ensures AfterGap(AfterWord(b)) != [] ==> |Word(b)| + 1 + |AfterGap(AfterWord(b))| <= |b|
  {
    WordThenRest(b);
    var rest := AfterWord(b);
    assert |AfterGap(rest)| == |rest| - GapEnd(rest);
  }

  /** The time of the line fits in 64-bit nanoseconds: so many milliseconds, if it has thirteen digits, or seconds. */
  predicate TimeFits(b: Bytes) {
    AllDigits(b) && Dec(b) <= if |b| == 13 then 9_223_372_036_854 else 9_223_372_036
  }

  lemma DigitsBoundTime(b: Bytes)
    requires ParseTime(b).Some?
    ensures Dec(b) < 10_000_000_000_000
    ensures Dec(b) * TimeScale(b) < 10_000_000_000_000_000_000
  {
    DecBound(b);
    assert Pow10(13) == 10_000_000_000_000 && Pow10(10) == 10_000_000_000;
    Pow10Monotone(|b|, 13);
    if |b| <= 10 {
      Pow10Monotone(|b|, 10);
    }
  }

  /** A time past the 64-bit range wraps below the epoch, or, just past it, to a time off the second. */
  lemma LateTimeWraps(t: int)
    requires MAX_INT64 < t < 10_000_000_000_000_000_000
    ensures !OnSecond(TruncateTime(Wrap64(t)))
  {
    var w := t - TWO_64;
    WrapCongruent(t, w, 1);
    var f := w - w % SECOND;
    if f < MIN_INT64 {
      assert f == -9_223_372_037 * SECOND;
      WrapCongruent(f + TWO_64, f, 1);
    }
  }

  lemma FlooredSecond(t: int)
    requires 0 <= t <= MAX_INT64
    ensures TruncateTime(t) == t - t % SECOND && OnSecond(t - t % SECOND)
  {
    assert (t - t % SECOND) == SECOND * (t / SECOND);
  }

  lemma ParsedTime(b: Bytes)
    requires ParseTime(b).Some?
    ensures IsInt64(ParseTime(b).value)
    ensures TimeFits(b) <==> OnSecond(ParseTime(b).value)
    ensures TimeFits(b) ==> |FormatInt(QuoTrunc(ParseTime(b).value, SECOND))| <= |b|
  {
    DigitsBoundTime(b);
    DigitsOfDec(b);
    var t := Dec(b) * TimeScale(b);
    if t <= MAX_INT64 {
      FlooredSecond(t);
      SecondsAtMost(Dec(b), TimeScale(b));
      DigitsMonotone(QuoTrunc(t - t % SECOND, SECOND), Dec(b));
    } else {
      LateTimeWraps(t);
    }
  }

  lemma SecondsAtMost(n: nat, scale: int)
    requires scale == SECOND || scale == 1_000_000
    ensures var t := n * scale; 0 <= t - t % SECOND && QuoTrunc(t - t % SECOND, SECOND) <= n
  {
  }

  lemma {:induction false} Pow10Monotone(a: nat, b: nat)
    requires a <= b
    ensures Pow10(a) <= Pow10(b)
  {
    if a > 0 {
      Pow10Monotone(a - 1, b - 1);
    }
  }

  /** Every accepted line decodes to a valid point. */
  lemma AcceptedIsValid(ft: FloatText, b: Bytes) returns (ts: seq<Tag>)
    requires Lawful(ft) && Unmarshal(ft, b).Decoded?
    ensures ValidAs(ft, Unmarshal(ft, b).point, ts)
    ensures Unmarshal(ft, b).point.tags == Block(ts) && |Block(ts)| <= |TagsField(b)|
    ensures TimeFits(TimeField(b)) <==> OnSecond(Unmarshal(ft, b).point.time)
    ensures Valid(ft, Unmarshal(ft, b).point)
  {
    ts := AcceptedFields(ft, b);
    FieldLengths(b);
    AllTagsParsed(TagsField(b));
    ParsedTime(TimeField(b));
    var d := Unmarshal(ft, b).point;
    ParsedValue(ft, ValueField(b));
    assert InRange(ft, d);
    assert ValidAs(ft, d, ts);
  }

  lemma AllTagsParsed(b: Bytes)
    requires ParseTags(b).Tagged? && (b == [] || IsSpace(b[0]))
    ensures var ts := ParseTags(b).tags; WellFormed(ts) && |ts| <= MAX_TAGS && |Block(ts)| <= |b|
  {
    ParsedTags(b, []);
  }

  /** A line is accepted with all of its fields. */
  lemma AcceptedFields(ft: FloatText, b: Bytes) returns (ts: seq<Tag>)
    requires Unmarshal(ft, b).Decoded?
    ensures ValidText(Word(b)) && ParseTime(TimeField(b)).Some? && ParseValue(ft, ValueField(b)).Some?
    ensures ParseTags(TagsField(b)) == Tagged(ts)
    ensures Unmarshal(ft, b).point
         == Datum(ParseTime(TimeField(b)).value, ParseValue(ft, ValueField(b)).value, Word(b), Block(ts))
  {
    ts := ParseTags(TagsField(b)).tags;
  }

  lemma ParsedValue(ft: FloatText, b: Bytes)
    requires Lawful(ft) && ParseValue(ft, b).Some?
    ensures match ParseValue(ft, b).value case Int(n) => IsInt64(n) case Float(x) => ft.finite(x)
  {
  }

  /**
   For every accepted line, printing what was decoded and parsing it again gives the same point exactly when
   the line's time fits in int64 nanoseconds, its value is not the least int64, and the new line fits.
   */
  lemma ReparseIff(ft: FloatText, b: Bytes)
    requires Lawful(ft) && Unmarshal(ft, b).Decoded?
    ensures var d := Unmarshal(ft, b).point;
            && Valid(ft, d)
            && (Unmarshal(ft, Append(ft, d)) == Decoded(d)
                <==> TimeFits(TimeField(b)) && d.value != Int(MIN_INT64) && |Append(ft, d)| <= MAX_LINE_LENGTH)
  {
    var ts := AcceptedIsValid(ft, b);
    RoundTripIff(ft, Unmarshal(ft, b).point);
  }

  /** A line with an integer value and in-range literals is never longer when printed again, so it reparses. */
  lemma ReprintNotLonger(ft: FloatText, b: Bytes)
    requires Lawful(ft) && Unmarshal(ft, b).Decoded?
    requires TimeFits(TimeField(b)) && DOT !in ValueField(b) && IntFits(ValueField(b))
    ensures var d := Unmarshal(ft, b).point;
            && Valid(ft, d)
            && |Append(ft, d)| <= |b|
            && Unmarshal(ft, Append(ft, d)) == Decoded(d)
  {
    var ts := AcceptedIsValid(ft, b);
    ReprintIntNotLonger(ValueField(b));
    ParsedTime(TimeField(b));
    FieldLengths(b);
    ReparseIff(ft, b);
  }

  const LATE_TIME: Bytes := [57, 57, 57, 57, 57, 57, 57, 57, 57, 57]
  const LATE_LINE: Bytes := [120] + ([SPACE] + (LATE_TIME + ([SPACE] + [49])))

  lemma LateTimeParses()
    ensures ParseTime(LATE_TIME) == Some(-8_446_744_075 * SECOND)
  {
    DecNines(LATE_TIME, 10);
    WrapCongruent(9_999_999_999 * SECOND, 9_999_999_999 * SECOND - TWO_64, 1);
  }

  const LATE_POINT: Datum := Datum(-8_446_744_075 * SECOND, Int(1), [120], [])

  lemma OneParses(ft: FloatText)
    ensures ParseValue(ft, [49]) == Some(Int(1))
  {
    assert Dec([49]) == 1 by {
      assert [49][..0] == [];
    }
  }

  lemma LateLineDecodes(ft: FloatText)
    ensures Assemble(ft, [120], LATE_TIME, [49], []) == Decoded(LATE_POINT)
    ensures Unmarshal(ft, LATE_LINE) == Decoded(LATE_POINT)
  {
    LateTimeParses();
    OneParses(ft);
    LateFields();
  }

  /** The line "x 9999999999 1" is accepted, its time wraps below the epoch, and it cannot be read back. */
  lemma LateTimeIsLost(ft: FloatText)
    requires Lawful(ft)
    ensures Unmarshal(ft, LATE_LINE) == Decoded(LATE_POINT)
    ensures Unmarshal(ft, Append(ft, LATE_POINT)) != Decoded(LATE_POINT)
  {
    LateLineDecodes(ft);
    var ts := AcceptedIsValid(ft, LATE_LINE);
    RoundTripIff(ft, LATE_POINT);
  }

  lemma LateFields()
    ensures Word(LATE_LINE) == [120] && TimeField(LATE_LINE) == LATE_TIME
    ensures ValueField(LATE_LINE) == [49] && TagsField(LATE_LINE) == []
  {
    WordOf([120], [SPACE] + (LATE_TIME + ([SPACE] + [49])));
    GapOf(LATE_TIME + ([SPACE] + [49]));
    WordOf(LATE_TIME, [SPACE] + [49]);
    GapOf([49]);
    WordOf([49], []);
    assert [49] + [] == [49];
  }

  lemma {:induction false} DecNines(b: Bytes, k: nat)
    requires |b| == k && forall i :: 0 <= i < k ==> b[i] == 57
    ensures Dec(b) == Pow10(k) - 1
    ensures k == 10 ==> Dec(b) == 9_999_999_999
  {
    if k > 0 {
      DecNines(b[..k - 1], k - 1);
    }
    assert Pow10(10) == 10_000_000_000;
  }
}
