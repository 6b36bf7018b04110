/** The aggregator's search for the host tag in the text of an event, and what it leaves of the text. */
module HostTag {
  import opened Bytes
  import opened Collections
  import opened TagBlocks
  import opened EventTags

  const HOST_EQUALS: Bytes := HOST + [EQUALS]

  /** The host, and the text without its tag. */
  datatype HostAndRest = HostAndRest(host: Bytes, rest: Bytes)

  /** A tag of n bytes at i is cut out: with the space in front of it, unless it is the first. */
  function CutOut(s: Bytes, i: nat, n: nat): Bytes
    requires i + n <= |s|
  {
    if i == 0 then s[n..] else s[..i - 1] + s[i + n..]
  }

  /** The value of the tag that a text starts with. */
  function FirstValue(tail: Bytes): Bytes {
    var end := IndexByte(tail, SPACE);
    var tag := if end > 0 then tail[..end] else tail;
    tag[IndexByte(tag, EQUALS) + 1..]
  }

  /** parseHostTag: looks at the first hit of "host=" only. */
  function ParseHostTag(tags: Bytes): Option<HostAndRest> {
    var i := Index(tags, HOST_EQUALS);
    if i == -1 || (i > 0 && tags[i - 1] != SPACE) then None
    else
      var host := FirstValue(tags[i..]);
      var n := |HOST_EQUALS| + |host|;
      if host == [] then None
      else Some(HostAndRest(host, if i + n <= |tags| then CutOut(tags, i, n) else []))
  }

  // ---- Where the first hit is --------------------------------------------------------------------------

  /** The first tag that has "host=" somewhere in its text. */
  function FirstWithHost(ts: seq<Tag>): Option<nat> {
    if ts == [] then None
    else if Index(TagText(ts[0]), HOST_EQUALS) != -1 then Some(0)
    else match FirstWithHost(ts[1..])
      case None => None
      case Some(x) => Some(x + 1)
  }

  lemma {:induction false} FirstIsFirst(ts: seq<Tag>)
    ensures match FirstWithHost(ts)
            case None => forall i :: 0 <= i < |ts| ==> Index(TagText(ts[i]), HOST_EQUALS) == -1
            case Some(x) => x < |ts| && Index(TagText(ts[x]), HOST_EQUALS) != -1
                            && forall i :: 0 <= i < x ==> Index(TagText(ts[i]), HOST_EQUALS) == -1
  {
    if ts != [] {
      FirstIsFirst(ts[1..]);
      assert forall i :: 0 < i < |ts| ==> ts[i] == ts[1..][i - 1];
    }
  }

  /** What holds no space cannot straddle one. */
  lemma HitOnOneSide(a: Bytes, b: Bytes, needle: Bytes, p: int)
    requires needle != [] && SPACE !in needle
    ensures HitAt(a + ([SPACE] + b), needle, p)
            <==> HitAt(a, needle, p) || (p > |a| && HitAt(b, needle, p - |a| - 1))
  {
    var s, n := a + ([SPACE] + b), |needle|;
    assert s[|a|] == SPACE && s[|a| + 1..] == b;
    if 0 <= p && p + n <= |a| {
      assert s[p..p + n] == a[p..p + n];
    } else if p > |a| && p + n <= |s| {
      assert s[p..p + n] == b[p - |a| - 1..p - |a| - 1 + n];
    } else if 0 <= p <= |a| && p + n <= |s| {
      assert s[p..p + n][|a| - p] == SPACE;
    }
  }

  lemma FirstHitIs(s: Bytes, needle: Bytes, p: int)
    requires needle != [] && -1 <= p
    requires p == -1 ==> forall j :: !HitAt(s, needle, j)
    requires p >= 0 ==> HitAt(s, needle, p) && forall j :: 0 <= j < p ==> !HitAt(s, needle, j)
    ensures Index(s, needle) == p
  {
    IndexIs(s, needle);
  }

  lemma FirstHitOfTwo(a: Bytes, b: Bytes, needle: Bytes)
    requires needle != [] && SPACE !in needle
    ensures Index(a + ([SPACE] + b), needle)
         == if Index(a, needle) != -1 then Index(a, needle)
            else if Index(b, needle) != -1 then |a| + 1 + Index(b, needle) else -1
  {
    var i, j := Index(a, needle), Index(b, needle);
    IndexIs(a, needle);
    IndexIs(b, needle);
    forall p ensures HitAt(a + ([SPACE] + b), needle, p)
                     <==> HitAt(a, needle, p) || (p > |a| && HitAt(b, needle, p - |a| - 1)) {
      HitOnOneSide(a, b, needle, p);
    }
    FirstHitIs(a + ([SPACE] + b), needle, if i != -1 then i else if j != -1 then |a| + 1 + j else -1);
  }

  lemma {:induction false} NoHit(ts: seq<Tag>)
    requires AllPlain(ts) && forall i :: 0 <= i < |ts| ==> Index(TagText(ts[i]), HOST_EQUALS) == -1
    ensures Index(Join(ts), HOST_EQUALS) == -1
  {
    if ts == [] {
      IndexIs([], HOST_EQUALS);
    } else {
      NoHit(ts[1..]);
      if ts[1..] == [] {
        assert TagText(ts[0]) + [] == TagText(ts[0]);
      } else {
        BlockIsJoin(ts[1..]);
        FirstHitOfTwo(TagText(ts[0]), Join(ts[1..]), HOST_EQUALS);
      }
    }
  }

  lemma NoHitBeforeSpace(s: Bytes)
    requires Index(s, HOST_EQUALS) == -1
    ensures Index(s + [SPACE], HOST_EQUALS) == -1
  {
    FirstHitOfTwo(s, [], HOST_EQUALS);
    assert s + ([SPACE] + []) == s + [SPACE];
  }

  // ---- Around a tag ------------------------------------------------------------------------------------

  function Others(ts: seq<Tag>, x: nat): seq<Tag>
    requires x < |ts|
  {
    ts[..x] + ts[x + 1..]
  }

  /** What follows the list in a text that spells it. */
  function Trailing(s: Bytes, ts: seq<Tag>): Bytes {
    if s == Join(ts) then [] else [SPACE]
  }

  /** What is left of a text when tag x is cut out: behind the first tag, a space stays in front. */
  function Left(ts: seq<Tag>, x: nat, end: Bytes): Bytes
    requires x < |ts|
  {
    (if x == 0 then Block(Others(ts, x)) else Join(Others(ts, x))) + end
  }

  /** A text is the tag with what is in front of it, and nothing or a space and more behind it. */
  ghost predicate Around(s: Bytes, ts: seq<Tag>, x: nat, pre: Bytes, rest: Bytes)
    requires x < |ts|
  {
    && (rest == [] || rest[0] == SPACE)
    && if x == 0 then s == TagText(ts[0]) + rest && rest == Left(ts, x, Trailing(s, ts))
       else s == pre + ([SPACE] + (TagText(ts[x]) + rest)) && pre == Join(ts[..x])
            && pre + rest == Left(ts, x, Trailing(s, ts))
  }

  lemma AroundFirst(s: Bytes, ts: seq<Tag>) returns (rest: Bytes)
    requires ts != [] && Spells(s, ts)
    ensures Around(s, ts, 0, [], rest)
  {
    var end := Trailing(s, ts);
    rest := Block(ts[1..]) + end;
    assert Others(ts, 0) == ts[1..];
    BlockStart(ts[1..]);
    assert s == Join(ts) + end;
    ConcatAssoc(TagText(ts[0]), Block(ts[1..]), end);
  }

  lemma JoinConcat(a: seq<Tag>, b: seq<Tag>)
    requires a != []
    ensures Join(a + b) == Join(a) + Block(b)
  {
    assert (a + b)[1..] == a[1..] + b;
    BlockConcat(a[1..], b);
    ConcatAssoc(TagText(a[0]), Block(a[1..]), Block(b));
  }

  lemma AroundLater(s: Bytes, ts: seq<Tag>, x: nat) returns (pre: Bytes, rest: Bytes)
    requires Spells(s, ts) && 0 < x < |ts|
    ensures Around(s, ts, x, pre, rest)
  {
    var a, b, end := ts[..x], ts[x + 1..], Trailing(s, ts);
    pre, rest := Join(a), Block(b) + end;
    CutAt(ts, x);
    JoinAround(a, ts[x], b);
    JoinConcat(a, b);
    BlockStart(b);
    Regrouped(pre, TagText(ts[x]), Block(b), end);
    TrailingIs(s, ts);
  }

  lemma CutAt<T>(s: seq<T>, x: nat)
    requires x < |s|
    ensures s == s[..x] + ([s[x]] + s[x + 1..])
  {
  }

  lemma JoinAround(a: seq<Tag>, t: Tag, b: seq<Tag>)
    requires a != []
    ensures Join(a + ([t] + b)) == Join(a) + (([SPACE] + TagText(t)) + Block(b))
  {
    JoinConcat(a, [t] + b);
    assert ([t] + b)[1..] == b;
  }

  lemma TrailingIs(s: Bytes, ts: seq<Tag>)
    requires Spells(s, ts)
    ensures s == Join(ts) + Trailing(s, ts)
  {
    if s == Join(ts) {
      assert s + [] == s;
    }
  }

  lemma Regrouped(pre: Bytes, text: Bytes, block: Bytes, end: Bytes)
    ensures (pre + (([SPACE] + text) + block)) + end == pre + ([SPACE] + (text + (block + end)))
    ensures (pre + block) + end == pre + (block + end)
    ensures end == [] ==> block + end == block
  {
  }

  // ---- What is found -----------------------------------------------------------------------------------

  /** Only the host tag has the hit at its start. */
  lemma HitAtStart(t: Tag)
    requires Plain(t)
    ensures HitAt(TagText(t), HOST_EQUALS, 0) <==> t.k == HOST
  {
    var text := TagText(t);
    assert text[|t.k|] == EQUALS && text[..|t.k|] == t.k;
    IndexByteIs(text, EQUALS, |t.k|);
    if t.k == HOST {
      assert text[0..5] == HOST_EQUALS;
    }
    if HitAt(text, HOST_EQUALS, 0) {
      var start := text[0..5];
      assert start[4] == EQUALS && start[..4] == HOST && text[..4] == start[..4];
      IndexByteIs(text, EQUALS, 4);
    }
  }

  /** The tag at the hit, cut off at its space, gives its value. */
  lemma ValueOfTag(t: Tag, rest: Bytes)
    requires Plain(t) && t.k == HOST && (rest == [] || rest[0] == SPACE)
    ensures FirstValue(TagText(t) + rest) == t.v && |TagText(t)| == |HOST_EQUALS| + |t.v|
  {
    var text := TagText(t);
    TagTextHasNoSpace(t);
    FirstSpace(text, rest);
    if rest == [] {
      assert text + rest == text;
    } else {
      assert (text + rest)[..|text|] == text;
    }
    assert text[..4] == HOST && text[4] == EQUALS && text[5..] == t.v;
    IndexByteIs(text, EQUALS, 4);
  }

  /** What is found when the first hit is in the tag t. */
  function Found(t: Tag, rest: Bytes): Option<HostAndRest> {
    if t.k == HOST && t.v != [] then Some(HostAndRest(t.v, rest)) else None
  }

  lemma HitInTag(text: Bytes, rest: Bytes)
    requires Index(text, HOST_EQUALS) != -1 && (rest == [] || rest[0] == SPACE)
    ensures Index(text + rest, HOST_EQUALS) == Index(text, HOST_EQUALS)
  {
    if rest == [] {
      assert text + rest == text;
    } else {
      HeadTail(rest);
      FirstHitOfTwo(text, rest[1..], HOST_EQUALS);
    }
  }

  lemma StartsOrNot(t: Tag)
    requires Plain(t) && Index(TagText(t), HOST_EQUALS) != -1
    ensures var j := Index(TagText(t), HOST_EQUALS);
            (j == 0 <==> t.k == HOST) && (j > 0 ==> TagText(t)[j - 1] != SPACE)
  {
    HitAtStart(t);
    IndexIs(TagText(t), HOST_EQUALS);
    TagTextHasNoSpace(t);
  }

  lemma ParseAt(s: Bytes, i: nat, t: Tag, rest: Bytes)
    requires Index(s, HOST_EQUALS) == i <= |s| && (i > 0 ==> s[i - 1] == SPACE) && s[i..] == TagText(t) + rest
    requires Plain(t) && t.k == HOST && (rest == [] || rest[0] == SPACE)
    ensures i + |TagText(t)| <= |s|
    ensures ParseHostTag(s) == Found(t, CutOut(s, i, |TagText(t)|))
  {
    ValueOfTag(t, rest);
    assert |s[i..]| == |TagText(t)| + |rest|;
  }

  lemma ParseFirst(t: Tag, rest: Bytes)
    requires Plain(t) && Index(TagText(t), HOST_EQUALS) != -1 && (rest == [] || rest[0] == SPACE)
    ensures ParseHostTag(TagText(t) + rest) == Found(t, rest)
  {
    var text, j := TagText(t), Index(TagText(t), HOST_EQUALS);
    var s := text + rest;
    HitInTag(text, rest);
    StartsOrNot(t);
    assert s[0..] == s && s[|text|..] == rest;
    if j == 0 {
      ParseAt(s, 0, t, rest);
    } else {
      InsideTag(s, 0, text, rest, j);
    }
  }

  lemma LaterHit(pre: Bytes, t: Tag, rest: Bytes)
    requires Index(pre, HOST_EQUALS) == -1
    requires Index(TagText(t), HOST_EQUALS) != -1 && (rest == [] || rest[0] == SPACE)
    ensures Index(pre + ([SPACE] + (TagText(t) + rest)), HOST_EQUALS) == |pre| + 1 + Index(TagText(t), HOST_EQUALS)
  {
    HitInTag(TagText(t), rest);
    FirstHitOfTwo(pre, TagText(t) + rest, HOST_EQUALS);
  }

  lemma ParseLater(pre: Bytes, t: Tag, rest: Bytes)
    requires Index(pre, HOST_EQUALS) == -1
    requires Plain(t) && Index(TagText(t), HOST_EQUALS) != -1 && (rest == [] || rest[0] == SPACE)
    ensures ParseHostTag(pre + ([SPACE] + (TagText(t) + rest))) == Found(t, pre + rest)
  {
    var s, i := pre + ([SPACE] + (TagText(t) + rest)), |pre| + 1;
    LaterHit(pre, t, rest);
    StartsOrNot(t);
    Parts(pre, TagText(t), rest);
    if t.k == HOST {
      ParseAt(s, i, t, rest);
    } else {
      InsideTag(s, i, TagText(t), rest, Index(TagText(t), HOST_EQUALS));
    }
  }

  lemma InsideTag(s: Bytes, i: nat, text: Bytes, rest: Bytes, j: nat)
    requires i <= |s| && s[i..] == text + rest && 0 < j <= |text| && text[j - 1] != SPACE
    requires Index(s, HOST_EQUALS) == i + j
    ensures ParseHostTag(s) == None
  {
    assert s[i + j - 1] == s[i..][j - 1];
  }

  lemma Parts(pre: Bytes, text: Bytes, rest: Bytes)
    ensures var s, i := pre + ([SPACE] + (text + rest)), |pre| + 1;
            s[i - 1] == SPACE && s[i..] == text + rest && CutOut(s, i, |text|) == pre + rest
  {
    var s, i := pre + ([SPACE] + (text + rest)), |pre| + 1;
    assert s[..i - 1] == pre && s[i + |text|..] == rest;
  }

  /** What is found in a text, given the first tag that has a hit. */
  ghost predicate HostIs(r: Option<HostAndRest>, ts: seq<Tag>, x: nat, end: Bytes)
    requires x < |ts|
  {
    r == Found(ts[x], Left(ts, x, end))
  }

  lemma NoHitBefore(ts: seq<Tag>, x: nat)
    requires AllPlain(ts) && FirstWithHost(ts) == Some(x)
    ensures x < |ts| && Index(Join(ts[..x]), HOST_EQUALS) == -1 && Index(TagText(ts[x]), HOST_EQUALS) != -1
  {
    FirstIsFirst(ts);
    NoHit(ts[..x]);
  }

  lemma HostOfFirst(s: Bytes, ts: seq<Tag>)
    requires AllPlain(ts) && Spells(s, ts) && FirstWithHost(ts) == Some(0)
    ensures ts != [] && HostIs(ParseHostTag(s), ts, 0, Trailing(s, ts))
  {
    FirstIsFirst(ts);
    var rest := AroundFirst(s, ts);
    ParseFirst(ts[0], rest);
  }

  lemma HostOfLater(s: Bytes, ts: seq<Tag>, x: nat)
    requires AllPlain(ts) && Spells(s, ts) && FirstWithHost(ts) == Some(x) && x > 0
    ensures x < |ts| && HostIs(ParseHostTag(s), ts, x, Trailing(s, ts))
  {
    NoHitBefore(ts, x);
    var pre, rest := AroundLater(s, ts, x);
    ParseLater(pre, ts[x], rest);
  }

  lemma HostOfNone(s: Bytes, ts: seq<Tag>)
    requires AllPlain(ts) && Spells(s, ts) && FirstWithHost(ts) == None
    ensures ParseHostTag(s) == None
  {
    FirstIsFirst(ts);
    NoHit(ts);
    NoHitBeforeSpace(Join(ts));
  }

  /**
   For every list of tags and every text that spells it: a host is found if and only if the first tag that has "host="
   in its text is a host tag with a value. What is left is then the text of the other tags, with the space behind the
   host tag if that was in front, and with the space that trailed if there was one.
   */
  lemma HostTagIff(s: Bytes, ts: seq<Tag>)
    requires AllPlain(ts) && Spells(s, ts)
    ensures match FirstWithHost(ts)
            case None => ParseHostTag(s) == None
            case Some(x) => x < |ts| && HostIs(ParseHostTag(s), ts, x, Trailing(s, ts))
  {
    match FirstWithHost(ts)
    case None => HostOfNone(s, ts);
    case Some(x) =>
      if x == 0 {
        HostOfFirst(s, ts);
      } else {
        HostOfLater(s, ts, x);
      }
  }

  // ---- The key -----------------------------------------------------------------------------------------

  lemma OthersArePlain(ts: seq<Tag>, x: nat)
    requires AllPlain(ts) && x < |ts|
    ensures AllPlain(Others(ts, x))
  {
  }

  /** A list of tags starts with its first key, not with a space. */
  lemma JoinStarts(ts: seq<Tag>)
    requires AllPlain(ts)
    ensures Join(ts) == [] <==> ts == []
    ensures ts != [] ==> Join(ts)[0] != SPACE
  {
    if ts != [] {
      TagTextHasNoSpace(ts[0]);
      assert Join(ts)[0] == TagText(ts[0])[0];
    }
  }

  /** What is left, as a leading space, the text of the other tags, and what trailed. */
  lemma LeftIs(ts: seq<Tag>, x: nat, end: Bytes)
    requires x < |ts|
    ensures Left(ts, x, end) == if x == 0 && |ts| > 1 then [SPACE] + (Join(Others(ts, x)) + end)
                                else Join(Others(ts, x)) + end
  {
    var others := Others(ts, x);
    if x == 0 && |ts| > 1 {
      BlockIsJoin(others);
      ConcatAssoc([SPACE], Join(others), end);
    }
  }

  /**
   What an event is stored under is the text of its other tags, if and only if its own text had no trailing space and
   its host tag was not in front of others.
   */
  lemma LeftIsOthersIff(s: Bytes, ts: seq<Tag>, x: nat)
    requires AllPlain(ts) && Spells(s, ts) && FirstWithHost(ts) == Some(x) && ParseHostTag(s).Some?
    ensures x < |ts|
    ensures ParseHostTag(s).value.rest == Join(Others(ts, x)) <==> s == Join(ts) && (x > 0 || |ts| == 1)
  {
    HostTagIff(s, ts);
    LeftIs(ts, x, Trailing(s, ts));
    if s == Join(ts) {
      assert Join(Others(ts, x)) + [] == Join(Others(ts, x));
    }
  }

  /** The two texts that the list can have are told apart by what is left, and so are lists. */
  lemma SpellsOnce(a: seq<Tag>, b: seq<Tag>, aEnd: Bytes, bEnd: Bytes)
    requires AllPlain(a) && AllPlain(b) && aEnd in {[], [SPACE]} && bEnd in {[], [SPACE]}
    requires a != [] && b != [] && Join(a) + aEnd == Join(b) + bEnd
    ensures a == b && aEnd == bEnd
  {
    assert Join(a) + [] == Join(a) && Join(b) + [] == Join(b);
    SplitInvertsJoin(Join(a) + aEnd, a);
    SplitInvertsJoin(Join(b) + bEnd, b);
    assert |aEnd| == |bEnd|;
  }

  /** A leading space, a trailing space, and the other tags: that is what keys differ in. */
  ghost predicate SameLeft(a: seq<Tag>, x: nat, aEnd: Bytes, b: seq<Tag>, y: nat, bEnd: Bytes)
    requires x < |a| && y < |b|
  {
    Others(a, x) == Others(b, y) && aEnd == bEnd && (|a| > 1 ==> (x == 0 <==> y == 0))
  }

  lemma SameLeftIff(a: seq<Tag>, x: nat, aEnd: Bytes, b: seq<Tag>, y: nat, bEnd: Bytes)
    requires AllPlain(a) && AllPlain(b) && aEnd in {[], [SPACE]} && bEnd in {[], [SPACE]} && x < |a| && y < |b|
    ensures Left(a, x, aEnd) == Left(b, y, bEnd) <==> SameLeft(a, x, aEnd, b, y, bEnd)
  {
    var p, q := Others(a, x), Others(b, y);
    OthersArePlain(a, x);
    OthersArePlain(b, y);
    LeftIs(a, x, aEnd);
    LeftIs(b, y, bEnd);
    if Left(a, x, aEnd) == Left(b, y, bEnd) {
      SplitLeft(p, x == 0 && |a| > 1, aEnd, q, y == 0 && |b| > 1, bEnd);
    }
  }

  lemma SplitLeft(a: seq<Tag>, aFront: bool, aEnd: Bytes, b: seq<Tag>, bFront: bool, bEnd: Bytes)
    requires AllPlain(a) && AllPlain(b) && aEnd in {[], [SPACE]} && bEnd in {[], [SPACE]}
    requires (aFront ==> a != []) && (bFront ==> b != [])
    requires (if aFront then [SPACE] + (Join(a) + aEnd) else Join(a) + aEnd)
          == (if bFront then [SPACE] + (Join(b) + bEnd) else Join(b) + bEnd)
    ensures a == b && aEnd == bEnd && aFront == bFront
  {
    JoinStarts(a);
    JoinStarts(b);
    var aText, bText := Join(a) + aEnd, Join(b) + bEnd;
    assert ([SPACE] + aText)[1..] == aText && ([SPACE] + bText)[1..] == bText;
    if a != [] && b != [] {
      assert aText[0] != SPACE && bText[0] != SPACE;
      SpellsOnce(a, b, aEnd, bEnd);
    }
  }

  /**
   Two events with one metric and one host are stored under one key, if and only if their other tags are the same in
   the same order, both or none of them have a trailing space, and both or none have the host tag in front of others.
   */
  lemma SameKeyIff(s: Bytes, a: seq<Tag>, x: nat, t: Bytes, b: seq<Tag>, y: nat)
    requires AllPlain(a) && Spells(s, a) && FirstWithHost(a) == Some(x) && ParseHostTag(s).Some?
    requires AllPlain(b) && Spells(t, b) && FirstWithHost(b) == Some(y) && ParseHostTag(t).Some?
    ensures x < |a| && y < |b|
    ensures ParseHostTag(s).value.rest == ParseHostTag(t).value.rest
            <==> SameLeft(a, x, Trailing(s, a), b, y, Trailing(t, b))
  {
    HostTagIff(s, a);
    HostTagIff(t, b);
    SameLeftIff(a, x, Trailing(s, a), b, y, Trailing(t, b));
  }

  // ---- Where that differs from a lookup ----------------------------------------------------------------

  const LETTER_A: Bytes := [97]
  const VHOST: Bytes := [118] + HOST

  /** "vhost=a host=a" has a host tag, which is not found behind the first hit. */
  lemma HiddenHostIsRefused()
    ensures var ts := [Tag(VHOST, LETTER_A), Tag(HOST, LETTER_A)];
            AllPlain(ts) && Lookup(ts, HOST) == Some(LETTER_A) && ParseHostTag(Join(ts)) == None
  {
    var ts := [Tag(VHOST, LETTER_A), Tag(HOST, LETTER_A)];
    var text := TagText(ts[0]);
    assert text[1..6] == HOST_EQUALS;
    assert HitAt(text, HOST_EQUALS, 1);
    IndexIs(text, HOST_EQUALS);
    assert FirstWithHost(ts) == Some(0);
    HostTagIff(Join(ts), ts);
    assert ts[1..][0].k == HOST;
  }

  ghost predicate HostAndOther(h: Tag, t: Tag) {
    Plain(h) && h.k == HOST && h.v != [] && Plain(t) && Index(TagText(t), HOST_EQUALS) == -1
  }

  lemma HostHits(h: Tag)
    requires Plain(h) && h.k == HOST
    ensures Index(TagText(h), HOST_EQUALS) != -1
  {
    HitAtStart(h);
    IndexIs(TagText(h), HOST_EQUALS);
  }

  lemma HostInFront(h: Tag, t: Tag)
    requires HostAndOther(h, t)
    ensures ParseHostTag(Join([h, t])) == Some(HostAndRest(h.v, [SPACE] + TagText(t)))
  {
    HostHits(h);
    BlockOne(t);
    assert [h, t][1..] == [t];
    ParseFirst(h, Chunk(t));
  }

  lemma HostBehind(h: Tag, t: Tag, end: Bytes)
    requires HostAndOther(h, t) && end in {[], [SPACE]}
    ensures ParseHostTag(Join([t, h]) + end) == Some(HostAndRest(h.v, TagText(t) + end))
  {
    HostHits(h);
    BlockOne(h);
    assert [t, h][1..] == [h];
    Regrouped(TagText(t), TagText(h), [], end);
    EmptyEnds(Chunk(h), end);
    ParseLater(TagText(t), h, end);
  }

  lemma EmptyEnds(a: Bytes, b: Bytes)
    ensures a + [] == a && [] + b == b
  {
  }

  /**
   "x=w host=v" is stored under "x=w", but with the host tag in front under " x=w", and with a trailing space under
   "x=w ": three keys for one set of tags.
   */
  lemma SameTagsOtherKeys(h: Tag, t: Tag)
    requires HostAndOther(h, t)
    ensures var text := TagText(t);
            && ParseHostTag(Join([t, h])) == Some(HostAndRest(h.v, text))
            && ParseHostTag(Join([h, t])) == Some(HostAndRest(h.v, [SPACE] + text))
            && ParseHostTag(Join([t, h]) + [SPACE]) == Some(HostAndRest(h.v, text + [SPACE]))
  {
    HostInFront(h, t);
    HostBehind(h, t, []);
    HostBehind(h, t, [SPACE]);
    EmptyEnds(TagText(t), []);
    EmptyEnds(Join([t, h]), []);
  }
}
