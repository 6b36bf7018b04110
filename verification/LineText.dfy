/** The text of a line: any run of blanks between two words will do. */
module LineText {
  import opened Bytes
  import opened Collections
  import opened Points
  import opened TagBlocks
  import opened Codec

  /** Spaces and tabs, at least one. */
  ghost predicate IsGap(g: Bytes) {
    g != [] && forall i :: 0 <= i < |g| ==> g[i] == 32 || g[i] == 9
  }

  /** A word holds no blank. */
  ghost predicate IsWord(w: Bytes) {
    w != [] && forall i :: 0 <= i < |w| ==> w[i] != 32 && w[i] != 9
  }

  ghost predicate AllGaps(gaps: seq<Bytes>) { forall i :: 0 <= i < |gaps| ==> IsGap(gaps[i]) }

  ghost predicate AllWords(words: seq<Bytes>) { forall i :: 0 <= i < |words| ==> IsWord(words[i]) }

  /** Words, each with a gap in front. */
  function Spaced(words: seq<Bytes>, gaps: seq<Bytes>): Bytes
    requires |gaps| == |words|
  {
    if words == [] then [] else gaps[0] + (words[0] + Spaced(words[1..], gaps[1..]))
  }

  lemma GapStarts(words: seq<Bytes>, gaps: seq<Bytes>)
    requires |gaps| == |words| && AllGaps(gaps)
    ensures Spaced(words, gaps) == [] || IsSpace(Spaced(words, gaps)[0])
  {
    if words != [] {
      assert Spaced(words, gaps)[0] == gaps[0][0];
    }
  }

  lemma GapPasses(g: Bytes, rest: Bytes)
    requires IsGap(g) && (rest == [] || !IsSpace(rest[0]))
    ensures AfterGap(g + rest) == rest
  {
    var b, e := g + rest, GapEnd(g + rest);
    assert forall i :: 0 <= i < |g| ==> b[i] == g[i];
    assert rest != [] ==> b[|g|] == rest[0];
    assert e == |g|;
  }

  /** Behind the gap comes the first word, and then the rest with its gaps. */
  lemma FirstWord(words: seq<Bytes>, gaps: seq<Bytes>)
    requires words != [] && |gaps| == |words| && AllGaps(gaps) && AllWords(words)
    ensures var s := AfterGap(Spaced(words, gaps));
            s != [] && Word(s) == words[0] && AfterWord(s) == Spaced(words[1..], gaps[1..])
  {
    var rest := Spaced(words[1..], gaps[1..]);
    GapStarts(words[1..], gaps[1..]);
    assert (words[0] + rest)[0] == words[0][0];
    GapPasses(gaps[0], words[0] + rest);
    WordOf(words[0], rest);
  }

  function FirstTag(words: seq<Bytes>): Tag
    requires words != [] && EQUALS in words[0]
  {
    var i := IndexByte(words[0], EQUALS);
    Tag(words[0][..i], words[0][i + 1..])
  }

  /** One tag is parsed from the first word, however that is set apart. */
  lemma ParseOneTag(words: seq<Bytes>, gaps: seq<Bytes>, seen: seq<Tag>)
    requires words != [] && |gaps| == |words| && AllGaps(gaps) && AllWords(words)
    ensures ParseTags(Spaced(words, gaps), seen)
         == if EQUALS !in words[0] then TagFailure(TruncatedTags)
            else if !ValidTag(FirstTag(words)) then TagFailure(InvalidTag)
            else if KeyIn(seen, FirstTag(words).k) then TagFailure(DuplicateKey)
            else ParseTags(Spaced(words[1..], gaps[1..]), seen + [FirstTag(words)])
  {
    FirstWord(words, gaps);
  }

  lemma {:induction false} TagsOfWords(words: seq<Bytes>, gaps: seq<Bytes>, others: seq<Bytes>, seen: seq<Tag>)
    requires |gaps| == |others| == |words| && AllGaps(gaps) && AllGaps(others) && AllWords(words)
    ensures ParseTags(Spaced(words, gaps), seen) == ParseTags(Spaced(words, others), seen)
    decreases |words|
  {
    if words != [] {
      ParseOneTag(words, gaps, seen);
      ParseOneTag(words, others, seen);
      if EQUALS in words[0] {
        TagsOfWords(words[1..], gaps[1..], others[1..], seen + [FirstTag(words)]);
      }
    }
  }

  /** A line: the metric, then the other words. */
  function LineOf(words: seq<Bytes>, gaps: seq<Bytes>): Bytes
    requires words != [] && |gaps| == |words| - 1
  {
    words[0] + Spaced(words[1..], gaps)
  }

  lemma FieldsOfLine(words: seq<Bytes>, gaps: seq<Bytes>)
    requires |words| >= 3 && |gaps| == |words| - 1 && AllGaps(gaps) && AllWords(words)
    ensures var b := LineOf(words, gaps);
            && b != [] && Word(b) == words[0] && TimeField(b) == words[1] && ValueField(b) == words[2]
            && TagsField(b) == Spaced(words[3..], gaps[2..])
  {
    GapStarts(words[1..], gaps);
    WordOf(words[0], Spaced(words[1..], gaps));
    FirstWord(words[1..], gaps);
    FirstWord(words[1..][1..], gaps[1..]);
    assert words[1..][1..] == words[2..] && words[2..][1..] == words[3..] && gaps[1..][1..] == gaps[2..];
  }

  lemma IsAssembled(ft: FloatText, b: Bytes)
    requires 0 < |b| <= MAX_LINE_LENGTH
    ensures Unmarshal(ft, b) == Assemble(ft, Word(b), TimeField(b), ValueField(b), TagsField(b))
  {
  }

  lemma SameTags(ft: FloatText, metric: Bytes, time: Bytes, value: Bytes, tags: Bytes, others: Bytes)
    requires ParseTags(tags) == ParseTags(others)
    ensures Assemble(ft, metric, time, value, tags) == Assemble(ft, metric, time, value, others)
  {
  }

  /**
   A line of metric, time, value and any number of tags decodes to the same, however its words are set apart by spaces
   and tabs, as long as neither text is too long.
   */
  lemma GapsDoNotMatter(ft: FloatText, words: seq<Bytes>, gaps: seq<Bytes>, others: seq<Bytes>)
    requires |words| >= 3 && |gaps| == |others| == |words| - 1
    requires AllGaps(gaps) && AllGaps(others) && AllWords(words)
    requires |LineOf(words, gaps)| <= MAX_LINE_LENGTH && |LineOf(words, others)| <= MAX_LINE_LENGTH
    ensures Unmarshal(ft, LineOf(words, gaps)) == Unmarshal(ft, LineOf(words, others))
  {
    FieldsOfLine(words, gaps);
    FieldsOfLine(words, others);
    TagsOfWords(words[3..], gaps[2..], others[2..], []);
    IsAssembled(ft, LineOf(words, gaps));
    IsAssembled(ft, LineOf(words, others));
    SameTags(ft, words[0], words[1], words[2], Spaced(words[3..], gaps[2..]), Spaced(words[3..], others[2..]));
  }

  // ---- Which lines are accepted ------------------------------------------------------------------------

  /** A tag is key=value, cut at its first equals sign. */
  function TagOfWord(w: Bytes): Tag
    requires EQUALS in w
  {
    var i := IndexByte(w, EQUALS);
    Tag(w[..i], w[i + 1..])
  }

  ghost predicate IsTagWord(w: Bytes) { EQUALS in w && ValidTag(TagOfWord(w)) }

  ghost predicate AllTagWords(words: seq<Bytes>) { forall i :: 0 <= i < |words| ==> IsTagWord(words[i]) }

  function TagsOf(words: seq<Bytes>): (ts: seq<Tag>)
    requires forall i :: 0 <= i < |words| ==> EQUALS in words[i]
    ensures |ts| == |words| && forall i :: 0 <= i < |words| ==> ts[i] == TagOfWord(words[i])
  {
    if words == [] then [] else [TagOfWord(words[0])] + TagsOf(words[1..])
  }

  lemma DistinctConcat(seen: seq<Tag>, t: Tag, rest: seq<Tag>)
    ensures seen + [t] + rest == seen + ([t] + rest)
    ensures Distinct(seen + ([t] + rest)) ==> !HasKey(seen, t.k)
    ensures Distinct(seen) && !HasKey(seen, t.k) ==> Distinct(seen + [t])
  {
    ConcatAssoc(seen, [t], rest);
    var all := seen + ([t] + rest);
    assert all[|seen|] == t && forall i :: 0 <= i < |seen| ==> all[i] == seen[i];
  }

  /** The tags are accepted if all are key=value of valid text, no key repeats, and there are at most eight. */
  ghost predicate TagsFit(words: seq<Bytes>, seen: seq<Tag>) {
    AllTagWords(words) && Distinct(seen + TagsOf(words)) && |seen| + |words| <= 8
  }

  lemma {:induction false} TagsAcceptedIff(words: seq<Bytes>, gaps: seq<Bytes>, seen: seq<Tag>)
    requires |gaps| == |words| && AllGaps(gaps) && AllWords(words) && Distinct(seen)
    ensures ParseTags(Spaced(words, gaps), seen).Tagged? <==> TagsFit(words, seen)
    ensures TagsFit(words, seen) ==> ParseTags(Spaced(words, gaps), seen) == Tagged(seen + TagsOf(words))
    decreases |words|
  {
    if words == [] {
      assert AllTagWords(words) && seen + TagsOf(words) == seen;
    } else {
      ParseOneTag(words, gaps, seen);
      TagsFitStep(words, seen);
      if IsTagWord(words[0]) && !KeyIn(seen, FirstTag(words).k) {
        var t := FirstTag(words);
        KeyInIs(seen, t.k);
        DistinctConcat(seen, t, []);
        TagsAcceptedIff(words[1..], gaps[1..], seen + [t]);
      }
    }
  }

  lemma TagsFitStep(words: seq<Bytes>, seen: seq<Tag>)
    requires words != [] && Distinct(seen)
    ensures TagsFit(words, seen) <==>
              IsTagWord(words[0]) && !KeyIn(seen, FirstTag(words).k) && TagsFit(words[1..], seen + [FirstTag(words)])
    ensures TagsFit(words, seen) ==> seen + TagsOf(words) == seen + [FirstTag(words)] + TagsOf(words[1..])
  {
    AllTagWordsCons(words);
    if AllTagWords(words) {
      var t := FirstTag(words);
      KeyInIs(seen, t.k);
      DistinctConcat(seen, t, TagsOf(words[1..]));
    }
  }

  lemma AllTagWordsCons(words: seq<Bytes>)
    requires words != []
    ensures AllTagWords(words) <==> IsTagWord(words[0]) && AllTagWords(words[1..])
    ensures AllTagWords(words) ==> TagsOf(words) == [FirstTag(words)] + TagsOf(words[1..])
  {
    HeadTail(words);
  }

  lemma AssembleAccepts(ft: FloatText, metric: Bytes, time: Bytes, value: Bytes, tags: Bytes)
    ensures var r := Assemble(ft, metric, time, value, tags);
            && (r.Decoded? <==> ValidText(metric) && ParseTime(time).Some? && ParseValue(ft, value).Some?
                                && ParseTags(tags).Tagged?)
            && (r.Decoded? ==>
                  r.point == Datum(ParseTime(time).value, ParseValue(ft, value).value, metric,
                                   Block(ParseTags(tags).tags)))
  {
  }

  lemma TagFieldAccepts(words: seq<Bytes>, gaps: seq<Bytes>)
    requires |gaps| == |words| && AllGaps(gaps) && AllWords(words)
    ensures ParseTags(Spaced(words, gaps)).Tagged? <==> TagsFit(words, [])
    ensures TagsFit(words, []) ==> ParseTags(Spaced(words, gaps)) == Tagged(TagsOf(words))
  {
    TagsAcceptedIff(words, gaps, []);
    if TagsFit(words, []) {
      assert [] + TagsOf(words) == TagsOf(words);
    }
  }

  /**
   A line is accepted if and only if its metric is valid text, its time and its value read, and its tags are at most
   eight of valid text with different keys; it then denotes just these, with the tags in their order.
   */
  lemma LineAcceptedIff(ft: FloatText, words: seq<Bytes>, gaps: seq<Bytes>)
    requires |words| >= 3 && |gaps| == |words| - 1 && AllGaps(gaps) && AllWords(words)
    requires |LineOf(words, gaps)| <= MAX_LINE_LENGTH
    ensures var r := Unmarshal(ft, LineOf(words, gaps));
            && (r.Decoded? <==> ValidText(words[0]) && ParseTime(words[1]).Some? && ParseValue(ft, words[2]).Some?
                                && TagsFit(words[3..], []))
            && (r.Decoded? ==>
                  r.point == Datum(ParseTime(words[1]).value, ParseValue(ft, words[2]).value, words[0],
                                   Block(TagsOf(words[3..]))))
  {
    FieldsOfLine(words, gaps);
    IsAssembled(ft, LineOf(words, gaps));
    TagFieldAccepts(words[3..], gaps[2..]);
    AssembleAccepts(ft, words[0], words[1], words[2], Spaced(words[3..], gaps[2..]));
  }
}
