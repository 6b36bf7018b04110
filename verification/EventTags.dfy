/**
 The second implementation of the tag update: events carry their tags as "k=v k=v", replace values where they
 stand and append what is missing.
 */
module EventTags {
  import opened Bytes
  import opened Collections
  import opened TagBlocks

  const MAX_TAGS_PER_EVENT: nat := 5

  function Join(ts: seq<Tag>): Bytes {
    if ts == [] then [] else TagText(ts[0]) + Block(ts[1..])
  }

  /** The text of an event's tags: the list, after which validateTags lets one space trail. */
  ghost predicate Spells(s: Bytes, ts: seq<Tag>) {
    s == Join(ts) || (ts != [] && s == Join(ts) + [SPACE])
  }

  lemma JoinSnoc(ts: seq<Tag>, t: Tag)
    ensures Join(ts + [t]) == Join(ts) + (if ts == [] then [] else [SPACE]) + TagText(t)
  {
    BlockOne(t);
    if ts != [] {
      assert (ts + [t])[1..] == ts[1..] + [t];
      BlockConcat(ts[1..], [t]);
    } else {
      assert ts + [t] == [t];
    }
  }

  // ---- validateTags ------------------------------------------------------------------------------------

  /** Cuts the text up to the first space, and what follows that space. */
  function Cut(s: Bytes): (r: (Bytes, Bytes))
    ensures s != [] ==> |r.1| < |s|
  {
    var i := IndexByte(s, SPACE);
    if i >= 0 then (s[..i], s[i + 1..]) else (s, [])
  }

  function Split(s: Bytes): Option<seq<Tag>>
    decreases |s|
  {
    if s == [] then Some([])
    else
      var (tag, rest) := Cut(s);
      var i := IndexByte(tag, EQUALS);
      if i == -1 then None
      else match Split(rest)
        case None => None
        case Some(ts) => Some([Tag(tag[..i], tag[i + 1..])] + ts)
  }

  lemma CutSpelled(s: Bytes, ts: seq<Tag>)
    requires ts != [] && AllPlain(ts) && Spells(s, ts)
    ensures s != [] && Cut(s).0 == TagText(ts[0]) && Spells(Cut(s).1, ts[1..])
    ensures IndexByte(TagText(ts[0]), EQUALS) == |ts[0].k|
    ensures TagText(ts[0])[..|ts[0].k|] == ts[0].k && TagText(ts[0])[|ts[0].k| + 1..] == ts[0].v
  {
    var text := TagText(ts[0]);
    assert text[..|ts[0].k|] == ts[0].k;
    IndexByteIs(text, EQUALS, |ts[0].k|);
    TagTextHasNoSpace(ts[0]);
    var rest := SpelledRest(s, ts);
    CutFirst(text, rest);
  }

  lemma CutFirst(text: Bytes, rest: Bytes)
    requires SPACE !in text && (rest == [] || rest[0] == SPACE)
    ensures Cut(text + rest).0 == text && Cut(text + rest).1 == if rest == [] then [] else rest[1..]
  {
    var s := text + rest;
    FirstSpace(text, rest);
    if rest == [] {
      assert s == text;
    } else {
      DropDrop(s, |text|, 1);
    }
  }

  lemma BlockIsJoin(ts: seq<Tag>)
    requires ts != []
    ensures Block(ts) == [SPACE] + Join(ts)
  {
    ConcatAssoc([SPACE], TagText(ts[0]), Block(ts[1..]));
  }

  lemma JoinCons(t: Tag, ts: seq<Tag>)
    ensures Join([t] + ts) == TagText(t) + Block(ts)
  {
    assert ([t] + ts)[1..] == ts;
  }

  /** After the first tag comes nothing, or a space and the text of the other tags. */
  lemma SpelledRest(s: Bytes, ts: seq<Tag>) returns (rest: Bytes)
    requires ts != [] && Spells(s, ts)
    ensures s == TagText(ts[0]) + rest && (rest == [] || rest[0] == SPACE)
    ensures if rest == [] then ts[1..] == [] else Spells(rest[1..], ts[1..])
  {
    var text, others := TagText(ts[0]), ts[1..];
    rest := if s == Join(ts) then Block(others) else Block(others) + [SPACE];
    ConcatAssoc(text, Block(others), [SPACE]);
    BlockStart(others);
    if others != [] {
      BlockIsJoin(others);
      TailOf([SPACE], Join(others));
    }
  }

  lemma TailOf(head: Bytes, tail: Bytes)
    requires |head| == 1
    ensures (head + tail)[1..] == tail && ((head + tail) + [SPACE])[1..] == tail + [SPACE]
    ensures (head + tail)[0] == head[0] && ((head + tail) + [SPACE])[0] == head[0]
  {
  }

  lemma {:induction false} SplitInvertsJoin(s: Bytes, ts: seq<Tag>)
    requires AllPlain(ts) && Spells(s, ts)
    ensures Split(s) == Some(ts)
    decreases ts
  {
    if ts != [] {
      CutSpelled(s, ts);
      SplitInvertsJoin(Cut(s).1, ts[1..]);
      HeadTail(ts);
    }
  }

  lemma {:induction false} SplitIsPlain(s: Bytes)
    requires Split(s).Some?
    ensures AllPlain(Split(s).value) && Spells(s, Split(s).value)
    decreases |s|
  {
    if s != [] && IndexByte(Cut(s).0, EQUALS) != -1 {
      var (tag, rest) := Cut(s);
      SplitIsPlain(rest);
      var t := CutTag(tag);
      CutJoins(s);
      SpellsCons(s, t, rest, Split(rest).value);
      assert Split(s).value == [t] + Split(rest).value;
    }
  }

  lemma CutTag(tag: Bytes) returns (t: Tag)
    requires EQUALS in tag && SPACE !in tag
    ensures t == Tag(tag[..IndexByte(tag, EQUALS)], tag[IndexByte(tag, EQUALS) + 1..])
    ensures TagText(t) == tag && Plain(t)
  {
    var i := IndexByte(tag, EQUALS);
    t := Tag(tag[..i], tag[i + 1..]);
  }

  lemma CutJoins(s: Bytes)
    ensures SPACE !in Cut(s).0
    ensures if SPACE in s then s == Cut(s).0 + [SPACE] + Cut(s).1 else s == Cut(s).0 && Cut(s).1 == []
  {
    var i := IndexByte(s, SPACE);
    if i >= 0 {
      assert s == s[..i] + [s[i]] + s[i + 1..];
    }
  }

  lemma SpellsCons(s: Bytes, t: Tag, rest: Bytes, ts: seq<Tag>)
    requires Spells(rest, ts)
    requires if SPACE in s then s == TagText(t) + [SPACE] + rest else s == TagText(t) && rest == []
    ensures Spells(s, [t] + ts)
  {
    JoinCons(t, ts);
    BlockStart(ts);
    if ts == [] {
      assert TagText(t) + [] == TagText(t);
    } else {
      BlockIsJoin(ts);
      Trailing(TagText(t), Join(ts));
    }
  }

  lemma Trailing(text: Bytes, others: Bytes)
    ensures text + [SPACE] + others == text + ([SPACE] + others)
    ensures text + [SPACE] + (others + [SPACE]) == text + ([SPACE] + others) + [SPACE]
  {
  }

  /** One round of the loop of validateTags: t is the first tag of s, or there is none. */
  ghost predicate SplitsAs(text: Bytes, past: seq<Tag>, s: Bytes) {
    && (Split(text).Some? <==> Split(s).Some?)
    && (Split(s).Some? ==> Split(text).value == past + Split(s).value)
  }

  lemma SplitStep(text: Bytes, past: seq<Tag>, s: Bytes)
    requires SplitsAs(text, past, s) && s != []
    ensures var (tag, rest) := Cut(s);
            var i := IndexByte(tag, EQUALS);
            if i == -1 then Split(text).None?
            else SplitsAs(text, past + [Tag(tag[..i], tag[i + 1..])], rest)
  {
    var (tag, rest) := Cut(s);
    var i := IndexByte(tag, EQUALS);
    if i != -1 && Split(rest).Some? {
      ConcatAssoc(past, [Tag(tag[..i], tag[i + 1..])], Split(rest).value);
    }
  }

  lemma DuplicateRejected(past: seq<Tag>, t: Tag, have: seq<Bytes>)
    requires KeysOf(have, past) && t.k in have
    ensures HasKey(past, t.k)
  {
    var j :| 0 <= j < |have| && have[j] == t.k;
    assert past[j].k == t.k;
  }

  lemma RepeatedKey(text: Bytes, past: seq<Tag>, t: Tag, s: Bytes)
    requires SplitsAs(text, past + [t], s) && HasKey(past, t.k)
    ensures Split(text).Some? ==> !Distinct(Split(text).value)
  {
    if Split(text).Some? {
      var j :| 0 <= j < |past| && past[j].k == t.k;
      var all := (past + [t]) + Split(s).value;
      assert all[j] == past[j] && all[|past|] == t;
    }
  }

  lemma NewKey(past: seq<Tag>, t: Tag, have: seq<Bytes>)
    requires KeysOf(have, past) && t.k !in have && Distinct(past)
    ensures Distinct(past + [t]) && KeysOf(have + [t.k], past + [t])
  {
    assert forall i :: 0 <= i < |past| ==> past[i].k == have[i];
  }

  /** At most five tags with distinct keys. */
  ghost predicate Accepted(text: Bytes) {
    Split(text).Some? && Distinct(Split(text).value) && |Split(text).value| <= MAX_TAGS_PER_EVENT
  }

  /** Where the loop of validateTags stands: past was cut off, s is still to come. */
  ghost predicate Validating(text: Bytes, past: seq<Tag>, s: Bytes, have: seq<Bytes>) {
    SplitsAs(text, past, s) && KeysOf(have, past) && Distinct(past)
  }

  /** t is the first tag of s, and rest is what follows it. */
  ghost predicate CutsOff(s: Bytes, t: Tag, rest: Bytes) {
    var (tag, r) := Cut(s);
    var i := IndexByte(tag, EQUALS);
    s != [] && i != -1 && t == Tag(tag[..i], tag[i + 1..]) && rest == r
  }

  ghost predicate StartsWithoutTag(s: Bytes) { s != [] && IndexByte(Cut(s).0, EQUALS) == -1 }

  lemma OneMore(text: Bytes, past: seq<Tag>, s: Bytes, have: seq<Bytes>, t: Tag, rest: Bytes)
    requires Validating(text, past, s, have) && CutsOff(s, t, rest) && t.k !in have
    ensures Validating(text, past + [t], rest, have + [t.k])
  {
    SplitStep(text, past, s);
    NewKey(past, t, have);
  }

  lemma OneTooMany(text: Bytes, past: seq<Tag>, s: Bytes, have: seq<Bytes>, t: Tag, rest: Bytes)
    requires Validating(text, past, s, have) && CutsOff(s, t, rest) && t.k in have
    ensures !Accepted(text)
  {
    SplitStep(text, past, s);
    DuplicateRejected(past, t, have);
    RepeatedKey(text, past, t, rest);
  }

  lemma NoTag(text: Bytes, past: seq<Tag>, s: Bytes, have: seq<Bytes>)
    requires Validating(text, past, s, have) && StartsWithoutTag(s)
    ensures !Accepted(text)
  {
    SplitStep(text, past, s);
  }

  lemma ValidateEnd(text: Bytes, past: seq<Tag>, have: seq<Bytes>)
    requires Validating(text, past, [], have)
    ensures Accepted(text) <==> |have| <= MAX_TAGS_PER_EVENT
  {
    assert past + [] == past;
  }

  /** Cuts the first tag off a text, if it has an equals sign. */
  method FirstTag(s: Bytes) returns (ok: bool, tagk: Bytes, rest: Bytes, ghost t: Tag)
    requires s != []
    ensures |rest| < |s|
    ensures if ok then CutsOff(s, t, rest) && tagk == t.k else StartsWithoutTag(s)
  {
    var (tag, r) := Cut(s);
    rest := r;
    var i := IndexByte(tag, EQUALS);
    if i == -1 {
      return false, [], rest, Tag([], []);
    }
    ok, tagk, t := true, tag[..i], Tag(tag[..i], tag[i + 1..]);
  }

  /** Accepts exactly the texts that spell at most five tags with distinct keys. */
  method ValidateTags(text: Bytes) returns (ok: bool)
    ensures ok <==> Accepted(text)
  {
    var s, have := text, [];
    ghost var past: seq<Tag> := [];
    while |s| > 0
      invariant Validating(text, past, s, have)
      decreases |s|
    {
      var found, tagk, rest, t := FirstTag(s);
      if !found {
        NoTag(text, past, s, have);
        return false;
      }
      if tagk in have {
        OneTooMany(text, past, s, have, t, rest);
        return false;
      }
      OneMore(text, past, s, have, t, rest);
      s, past, have := rest, past + [t], have + [tagk];
    }
    ValidateEnd(text, past, have);
    return |have| <= MAX_TAGS_PER_EVENT;
  }

  // ---- Event.SetTags -----------------------------------------------------------------------------------

  /** Replaces the values of ts that news overrides, in place. */
  function Replace(ts: seq<Tag>, news: seq<Tag>): seq<Tag> {
    if ts == [] then []
    else
      var v := match Lookup(news, ts[0].k) case Some(v) => v case None => ts[0].v;
      [Tag(ts[0].k, v)] + Replace(ts[1..], news)
  }

  /**
   What is left to append of the new tags: those whose key ts does not hold, and every tag that repeats a key of
   the new tags before it, which only the first of them can replace.
   */
  function Missing(before: seq<Tag>, left: seq<Tag>, ts: seq<Tag>): seq<Tag>
    decreases |left|
  {
    if left == [] then []
    else
      (if KeyIn(ts, left[0].k) && !KeyIn(before, left[0].k) then [] else [left[0]])
      + Missing(before + [left[0]], left[1..], ts)
  }

  /** The new tags, without those of keys whose value is nil: they leave the old value where it stands. */
  function Given(news: seq<Tag>, nils: set<Bytes>): seq<Tag> {
    if news == [] then []
    else (if news[0].k in nils then [] else [news[0]]) + Given(news[1..], nils)
  }

  lemma {:induction false} LookupGiven(news: seq<Tag>, nils: set<Bytes>, key: Bytes)
    ensures Lookup(Given(news, nils), key) == if key in nils then None else Lookup(news, key)
  {
    if news != [] {
      var rest := Given(news[1..], nils);
      LookupGiven(news[1..], nils, key);
      assert [] + rest == rest && ([news[0]] + rest)[1..] == rest;
    }
  }

  lemma {:induction false} GivenIsPlain(news: seq<Tag>, nils: set<Bytes>)
    requires AllPlain(news)
    ensures AllPlain(Given(news, nils))
  {
    if news != [] {
      GivenIsPlain(news[1..], nils);
    }
  }

  /** What SetTags makes of a list, when the first values of the keys in nils are nil. */
  function EventSet(ts: seq<Tag>, news: seq<Tag>, nils: set<Bytes>): seq<Tag> {
    Replace(ts, Given(news, nils)) + Missing([], news, ts)
  }

  /** The keys whose first value is nil, and not just empty. */
  ghost function NilKeys(newval: seq<Bytes>, isNil: seq<bool>): set<Bytes>
    requires |newval| % 2 == 0 && |isNil| == |newval|
  {
    set i | 0 <= i < |newval| && i % 2 == 0 && FirstKey(newval, newval[i], i) && NilAt(isNil, i + 1) :: newval[i]
  }

  predicate NilAt(isNil: seq<bool>, i: nat) { i < |isNil| && isNil[i] }

  lemma NilKeysAre(newval: seq<Bytes>, isNil: seq<bool>, key: Bytes, i: int)
    requires |newval| % 2 == 0 && |isNil| == |newval| && FirstKey(newval, key, i)
    ensures key in NilKeys(newval, isNil) <==> i != -1 && NilAt(isNil, i + 1)
  {
  }

  ghost function Over(newval: seq<Bytes>, isNil: seq<bool>): seq<Tag>
    requires |newval| % 2 == 0 && |isNil| == |newval|
  {
    Given(Pairs(newval), NilKeys(newval, isNil))
  }

  class Event {
    var metric: Bytes
    var tags: Bytes

    /** isNil tells a value that is nil from one that is empty. */
    method SetTags(newval: seq<Bytes>, isNil: seq<bool>, ghost ts: seq<Tag>)
      requires |newval| % 2 == 0 && |isNil| == |newval|
      requires AllPlain(ts) && Spells(tags, ts)
      modifies `tags
      ensures tags == Join(EventSet(ts, Pairs(newval), NilKeys(newval, isNil)))
    {
      var buf, sep, done := ReplaceTags(tags, newval, isNil, ts);
      buf := AppendMissing(buf, sep, newval, done, Replace(ts, Over(newval, isNil)), ts);
      tags := buf;
    }
  }

  /** i is the first even index that holds the key, or -1. */
  ghost predicate FirstKey(newval: seq<Bytes>, key: Bytes, i: int) {
    if i == -1 then forall j :: 0 <= j < |newval| && j % 2 == 0 ==> newval[j] != key
    else 0 <= i < |newval| && i % 2 == 0 && newval[i] == key
         && forall j :: 0 <= j < i && j % 2 == 0 ==> newval[j] != key
  }

  /** done[i] says whether newval[i] is the first of its kind and the old tags hold it. */
  ghost predicate Marks(done: seq<bool>, newval: seq<Bytes>, past: seq<Tag>) {
    && |done| == |newval|
    && forall i :: 0 <= i < |done| && i % 2 == 0 ==>
         (done[i] <==> HasKey(past, newval[i]) && FirstKey(newval, newval[i], i))
  }

  lemma MissingStep(out: seq<Tag>, before: seq<Tag>, news: seq<Tag>, ts: seq<Tag>, goal: seq<Tag>)
    requires news != [] && out + Missing(before, news, ts) == goal
    ensures var rest := Missing(before + [news[0]], news[1..], ts);
            if HasKey(ts, news[0].k) && !HasKey(before, news[0].k) then out + rest == goal
            else (out + [news[0]]) + rest == goal
    ensures Join(out + [news[0]]) == Join(out) + (if out == [] then [] else [SPACE]) + TagText(news[0])
  {
    MissingCons(before, news, ts);
    JoinSnoc(out, news[0]);
    ConcatAssoc(out, [news[0]], Missing(before + [news[0]], news[1..], ts));
  }

  lemma MissingCons(before: seq<Tag>, news: seq<Tag>, ts: seq<Tag>)
    requires news != []
    ensures var rest := Missing(before + [news[0]], news[1..], ts);
            Missing(before, news, ts)
            == if HasKey(ts, news[0].k) && !HasKey(before, news[0].k) then rest else [news[0]] + rest
  {
    KeyInIs(ts, news[0].k);
    KeyInIs(before, news[0].k);
    var rest := Missing(before + [news[0]], news[1..], ts);
    assert [] + rest == rest;
  }

  /** The keys of the first pairs, up to index i. */
  ghost predicate KeysBefore(newval: seq<Bytes>, i: nat, before: seq<Tag>) {
    && i == 2 * |before| && i <= |newval|
    && forall j :: 0 <= j < |before| ==> before[j].k == newval[2 * j]
  }

  lemma FirstIsNew(newval: seq<Bytes>, i: nat, before: seq<Tag>)
    requires KeysBefore(newval, i, before) && i < |newval|
    ensures FirstKey(newval, newval[i], i) <==> !HasKey(before, newval[i])
  {
    var key := newval[i];
    if HasKey(before, key) {
      var j :| 0 <= j < |before| && before[j].k == key;
      assert newval[2 * j] == key;
    } else {
      forall j | 0 <= j < i && j % 2 == 0 ensures newval[j] != key {
        assert before[j / 2].k == newval[2 * (j / 2)];
      }
    }
  }

  lemma KeysBeforeStep(newval: seq<Bytes>, i: nat, before: seq<Tag>, v: Bytes)
    requires KeysBefore(newval, i, before) && i + 2 <= |newval|
    ensures KeysBefore(newval, i + 2, before + [Tag(newval[i], v)])
  {
  }

  /** Where the second loop of Event.SetTags stands: what is printed, and what is left to append. */
  ghost predicate Appending(buf: Bytes, sep: Bytes, newval: seq<Bytes>, i: nat, out: seq<Tag>, before: seq<Tag>,
                            left: seq<Tag>, ts: seq<Tag>, goal: seq<Tag>) {
    && |newval| % 2 == 0 && KeysBefore(newval, i, before) && left == Pairs(newval[i..])
    && buf == Join(out) && sep == (if out == [] then [] else [SPACE])
    && out + Missing(before, left, ts) == goal
  }

  lemma AppendingStep(buf: Bytes, sep: Bytes, newval: seq<Bytes>, i: nat, out: seq<Tag>, before: seq<Tag>,
                      left: seq<Tag>, ts: seq<Tag>, goal: seq<Tag>, done: seq<bool>)
    requires Appending(buf, sep, newval, i, out, before, left, ts, goal) && i + 1 < |newval| && Marks(done, newval, ts)
    ensures left != [] && left[0] == Tag(newval[i], newval[i + 1])
    ensures if done[i] then Appending(buf, sep, newval, i + 2, out, before + [left[0]], left[1..], ts, goal)
            else Appending(buf + sep + TagText(left[0]), [SPACE], newval, i + 2, out + [left[0]],
                           before + [left[0]], left[1..], ts, goal)
  {
    assert newval[i..][2..] == newval[i + 2..];
    FirstIsNew(newval, i, before);
    KeysBeforeStep(newval, i, before, newval[i + 1]);
    MissingStep(out, before, left, ts, goal);
  }

  /** The second loop of Event.SetTags: appends the new tags that replaced nothing. */
  method AppendMissing(buf0: Bytes, sep0: Bytes, newval: seq<Bytes>, done: seq<bool>, ghost out0: seq<Tag>,
                       ghost ts: seq<Tag>)
    returns (buf: Bytes)
    requires |newval| % 2 == 0 && Marks(done, newval, ts)
    requires buf0 == Join(out0) && sep0 == if out0 == [] then [] else [SPACE]
    ensures buf == Join(out0 + Missing([], Pairs(newval), ts))
  {
    buf := buf0;
    var sep := sep0;
    ghost var out, before, left := out0, [], Pairs(newval);
    ghost var goal := out + Missing([], left, ts);
    var i := 0;
    assert newval[0..] == newval;
    while i < |newval|
      invariant i % 2 == 0 && 0 <= i <= |newval|
      invariant Appending(buf, sep, newval, i, out, before, left, ts, goal)
    {
      EvenStep(i, |newval|);
      AppendingStep(buf, sep, newval, i, out, before, left, ts, goal, done);
      var tagk, tagv := newval[i], newval[i + 1];
      ghost var t := left[0];
      before, left := before + [t], left[1..];
      if done[i] {
        i := i + 2;
        continue;
      }
      i := i + 2;
      buf := buf + sep + (tagk + [EQUALS] + tagv);
      sep := [SPACE];
      out := out + [t];
    }
    assert left == [] && out + [] == out;
  }

  lemma {:induction false} ReplaceLength(ts: seq<Tag>, news: seq<Tag>)
    ensures |Replace(ts, news)| == |ts|
    ensures forall i :: 0 <= i < |ts| ==>
      Replace(ts, news)[i] == Tag(ts[i].k, match Lookup(news, ts[i].k) case Some(v) => v case None => ts[i].v)
  {
    if ts != [] {
      ReplaceLength(ts[1..], news);
    }
  }

  lemma {:induction false} LookupPairs(newval: seq<Bytes>, key: Bytes, i: int)
    requires |newval| % 2 == 0 && FirstKey(newval, key, i)
    ensures Lookup(Pairs(newval), key) == if i == -1 then None else Some(newval[i + 1])
  {
    if newval != [] && i != 0 {
      var rest := newval[2..];
      assert forall j :: 2 <= j < |newval| ==> newval[j] == rest[j - 2];
      LookupPairs(rest, key, if i == -1 then -1 else i - 2);
    }
  }

  /** The first argument pair with the given key: its index in newval, or -1. */
  method FindReplacement(newval: seq<Bytes>, tagk: Bytes) returns (i: int)
    requires |newval| % 2 == 0
    ensures -1 <= i && i + 1 < |newval| + (if i == -1 then 1 else 0) && FirstKey(newval, tagk, i)
    ensures Lookup(Pairs(newval), tagk) == if i == -1 then None else Some(newval[i + 1])
  {
    i := 0;
    while i < |newval|
      invariant 0 <= i <= |newval| && i % 2 == 0
      invariant forall j :: 0 <= j < i && j % 2 == 0 ==> newval[j] != tagk
    {
      if tagk == newval[i] {
        LookupPairs(newval, tagk, i);
        return;
      }
      i := i + 2;
    }
    LookupPairs(newval, tagk, -1);
    return -1;
  }

  /** Where the first loop of Event.SetTags stands: past is printed as out, left is still to come. */
  ghost predicate Replacing(ts: seq<Tag>, news: seq<Tag>, past: seq<Tag>, left: seq<Tag>, out: seq<Tag>) {
    && past + left == ts
    && |out| == |past|
    && out + Replace(left, news) == Replace(ts, news)
  }

  lemma ReplaceStep(ts: seq<Tag>, news: seq<Tag>, past: seq<Tag>, left: seq<Tag>, out: seq<Tag>)
    requires Replacing(ts, news, past, left, out) && left != []
    ensures var t := Tag(left[0].k, match Lookup(news, left[0].k) case Some(v) => v case None => left[0].v);
            && Replacing(ts, news, past + [left[0]], left[1..], out + [t])
            && Join(out + [t]) == Join(out) + (if past == [] then [] else [SPACE]) + TagText(t)
  {
    var t := Tag(left[0].k, match Lookup(news, left[0].k) case Some(v) => v case None => left[0].v);
    JoinSnoc(out, t);
    ConcatAssoc(out, [t], Replace(left[1..], news));
    ConcatAssoc(past, [left[0]], left[1..]);
    assert left == [left[0]] + left[1..];
  }

  lemma MarkedIs(newval: seq<Bytes>, done: seq<bool>, past: seq<Tag>, t: Tag, i: int)
    requires Marks(done, newval, past)
    requires -1 <= i < |newval| && FirstKey(newval, t.k, i)
    ensures Marks(if i == -1 then done else done[i := true], newval, past + [t])
  {
    forall key ensures HasKey(past + [t], key) <==> HasKey(past, key) || t.k == key {
      var ext := past + [t];
      assert ext[|past|].k == t.k;
      assert forall x :: 0 <= x < |past| ==> ext[x] == past[x];
    }
  }

  /** Where the first loop of Event.SetTags stands: past is printed and marked, left is still to come. */
  ghost predicate Stage(ts: seq<Tag>, newval: seq<Bytes>, isNil: seq<bool>, tags: Bytes, buf: Bytes, sep: Bytes,
                        done: seq<bool>, past: seq<Tag>, left: seq<Tag>, out: seq<Tag>)
    requires |newval| % 2 == 0 && |isNil| == |newval|
  {
    && AllPlain(left) && Spells(tags, left) && Replacing(ts, Over(newval, isNil), past, left, out)
    && buf == Join(out) && sep == (if past == [] then [] else [SPACE])
    && Marks(done, newval, past)
  }

  lemma NextStage(ts: seq<Tag>, newval: seq<Bytes>, isNil: seq<bool>, tags: Bytes, buf: Bytes, sep: Bytes,
                  done: seq<bool>, past: seq<Tag>, left: seq<Tag>, out: seq<Tag>, i: int)
    requires |newval| % 2 == 0 && |isNil| == |newval|
    requires Stage(ts, newval, isNil, tags, buf, sep, done, past, left, out) && left != []
    requires -1 <= i < |newval| && FirstKey(newval, left[0].k, i)
    ensures var t := Tag(left[0].k, if i == -1 || NilAt(isNil, i + 1) then left[0].v else newval[i + 1]);
            Stage(ts, newval, isNil, Cut(tags).1, buf + sep + TagText(t), [SPACE],
                  if i == -1 then done else done[i := true], past + [left[0]], left[1..], out + [t])
  {
    CutSpelled(tags, left);
    LookupPairs(newval, left[0].k, i);
    NilKeysAre(newval, isNil, left[0].k, i);
    LookupGiven(Pairs(newval), NilKeys(newval, isNil), left[0].k);
    ReplaceStep(ts, Over(newval, isNil), past, left, out);
    MarkedIs(newval, done, past, left[0], i);
  }

  lemma LastStage(ts: seq<Tag>, newval: seq<Bytes>, isNil: seq<bool>, buf: Bytes, sep: Bytes, done: seq<bool>,
                  past: seq<Tag>, left: seq<Tag>, out: seq<Tag>)
    requires |newval| % 2 == 0 && |isNil| == |newval| && Stage(ts, newval, isNil, [], buf, sep, done, past, left, out)
    ensures buf == Join(Replace(ts, Over(newval, isNil))) && Marks(done, newval, ts)
    ensures sep == if Replace(ts, Over(newval, isNil)) == [] then [] else [SPACE]
  {
    assert left == [];
    assert past + [] == past && out + [] == out;
  }

  /** The first loop of Event.SetTags: prints the old tags with their replacements and marks what was used. */
  method ReplaceTags(text: Bytes, newval: seq<Bytes>, isNil: seq<bool>, ghost ts: seq<Tag>)
    returns (buf: Bytes, sep: Bytes, done: seq<bool>)
    requires |newval| % 2 == 0 && |isNil| == |newval|
    requires AllPlain(ts) && Spells(text, ts)
    ensures buf == Join(Replace(ts, Over(newval, isNil)))
    ensures sep == if Replace(ts, Over(newval, isNil)) == [] then [] else [SPACE]
    ensures Marks(done, newval, ts)
  {
    buf, sep, done := [], [], seq(|newval|, _ => false);
    var tags := text;
    ghost var past, left, out: seq<Tag> := [], ts, [];
    while |tags| > 0
      invariant Stage(ts, newval, isNil, tags, buf, sep, done, past, left, out)
      decreases |left|
    {
      CutSpelled(tags, left);
      ghost var tags0, buf0, sep0 := tags, buf, sep;
      var (tag, rest) := Cut(tags);
      tags := rest;
      buf := buf + sep;
      sep := [SPACE];
      var tagk := tag[..IndexByte(tag, EQUALS)];
      var i := FindReplacement(newval, tagk);
      NextStage(ts, newval, isNil, tags0, buf0, sep0, done, past, left, out, i);
      if i != -1 {
        done := done[i := true];
      }
      if i == -1 || isNil[i + 1] {
        buf := buf + tag;
      } else {
        buf := buf + (tagk + [EQUALS] + newval[i + 1]);
      }
      ghost var t := Tag(tagk, if i == -1 || NilAt(isNil, i + 1) then left[0].v else newval[i + 1]);
      past, left, out := past + [left[0]], left[1..], out + [t];
    }
    LastStage(ts, newval, isNil, buf, sep, done, past, left, out);
  }

  // ---- Both updates override the same map --------------------------------------------------------------

  lemma {:induction false} LookupReplace(ts: seq<Tag>, news: seq<Tag>, key: Bytes)
    ensures Lookup(Replace(ts, news), key)
         == if Lookup(ts, key) == None then None
            else if Lookup(news, key).Some? then Lookup(news, key) else Lookup(ts, key)
  {
    if ts != [] {
      LookupReplace(ts[1..], news, key);
    }
  }

  /** A key that the old tags do not hold is appended with its first value. */
  lemma {:induction false} LookupMissing(before: seq<Tag>, left: seq<Tag>, ts: seq<Tag>, key: Bytes)
    requires !HasKey(ts, key)
    ensures Lookup(Missing(before, left, ts), key) == Lookup(left, key)
    decreases |left|
  {
    if left != [] {
      var rest := Missing(before + [left[0]], left[1..], ts);
      KeyInIs(ts, left[0].k);
      LookupMissing(before + [left[0]], left[1..], ts, key);
      if KeyIn(ts, left[0].k) && !KeyIn(before, left[0].k) {
        assert [] + rest == rest;
      } else {
        LookupConcat([left[0]], rest, key);
        assert [left[0]][1..] == [];
      }
    }
  }

  /** The map that the new tags override: nil values do so only where there is no old value. */
  function Overriding(ts: seq<Tag>, news: seq<Tag>, nils: set<Bytes>): map<Bytes, Bytes> {
    ToMap(news) - (nils * ToMap(ts).Keys)
  }

  /**
   Both implementations of SetTags override the old map of tags by the new one, whichever keys repeat: a lookup
   finds the first new value of its key, unless it is nil, or else the old one. The event keeps every existing tag at
   its position. A point refuses nil values, as it does empty ones.
   */
  lemma BothSetTagsAgree(ts: seq<Tag>, keyval: seq<Bytes>, nils: set<Bytes>)
    requires |keyval| % 2 == 0
    requires forall key :: key in nils ==> Lookup(Pairs(keyval), key) == Some([])
    ensures var e := EventSet(ts, Pairs(keyval), nils);
            && ToMap(e) == ToMap(ts) + Overriding(ts, Pairs(keyval), nils)
            && |ts| <= |e| && (forall i :: 0 <= i < |ts| ==> e[i].k == ts[i].k)
    ensures SetTagsResult(ts, keyval).Tagged?
            ==> nils == {} && ToMap(SetTagsResult(ts, keyval).tags) == ToMap(EventSet(ts, Pairs(keyval), nils))
  {
    var news := Pairs(keyval);
    var e, m := EventSet(ts, news, nils), ToMap(ts) + Overriding(ts, news, nils);
    forall key ensures Lookup(e, key) == if key in m then Some(m[key]) else None {
      EventLookup(ts, news, nils, key);
    }
    SameMap(e, m);
    ReplaceLength(ts, Given(news, nils));
    OverrideIsMap(ts, news);
    if SetTagsResult(ts, keyval).Tagged? {
      NoneNil(news, nils);
    }
  }

  lemma NoneNil(news: seq<Tag>, nils: set<Bytes>)
    requires forall i :: 0 <= i < |news| ==> ValidTag(news[i])
    requires forall key :: key in nils ==> Lookup(news, key) == Some([])
    ensures nils == {}
  {
    if key :| key in nils {
      LookupHolds(news, key);
    }
  }

  lemma EventLookup(ts: seq<Tag>, news: seq<Tag>, nils: set<Bytes>, key: Bytes)
    requires key in nils ==> Lookup(news, key).Some?
    ensures var m := ToMap(ts) + Overriding(ts, news, nils);
            Lookup(EventSet(ts, news, nils), key) == if key in m then Some(m[key]) else None
  {
    LookupConcat(Replace(ts, Given(news, nils)), Missing([], news, ts), key);
    LookupReplace(ts, Given(news, nils), key);
    LookupGiven(news, nils, key);
    LookupNone(ts, key);
    if !HasKey(ts, key) {
      LookupMissing([], news, ts, key);
    }
    LookupIsMap(news, key);
    LookupIsMap(ts, key);
  }

  lemma {:induction false} LookupHolds(ts: seq<Tag>, key: Bytes)
    requires Lookup(ts, key).Some?
    ensures Tag(key, Lookup(ts, key).value) in ts
  {
    if ts[0].k != key {
      LookupHolds(ts[1..], key);
    }
  }

  lemma ReplaceIsPlain(ts: seq<Tag>, news: seq<Tag>)
    requires AllPlain(ts) && AllPlain(news)
    ensures AllPlain(Replace(ts, news))
  {
    ReplaceLength(ts, news);
    forall i | 0 <= i < |ts| ensures Plain(Replace(ts, news)[i]) {
      if Lookup(news, ts[i].k).Some? {
        LookupHolds(news, ts[i].k);
      }
    }
  }

  lemma {:induction false} MissingIsPlain(before: seq<Tag>, left: seq<Tag>, ts: seq<Tag>)
    requires AllPlain(left)
    ensures AllPlain(Missing(before, left, ts))
    decreases |left|
  {
    if left != [] {
      MissingIsPlain(before + [left[0]], left[1..], ts);
    }
  }

  /** Without repeated keys, what is missing is what the old tags do not hold. */
  lemma {:induction false} MissingIsKeep(before: seq<Tag>, left: seq<Tag>, ts: seq<Tag>)
    requires Distinct(before + left)
    ensures Missing(before, left, ts) == Keep(left, ts)
    decreases |left|
  {
    if left != [] {
      HeadTail(left);
      ConcatAssoc(before, [left[0]], left[1..]);
      MissingIsKeep(before + [left[0]], left[1..], ts);
      KeyInIs(before, left[0].k);
      assert (before + left)[|before|] == left[0];
      assert forall i :: 0 <= i < |before| ==> (before + left)[i] == before[i];
    }
  }

  lemma {:induction false} MissingConcat(before: seq<Tag>, a: seq<Tag>, b: seq<Tag>, ts: seq<Tag>)
    ensures Missing(before, a + b, ts) == Missing(before, a, ts) + Missing(before + a, b, ts)
    decreases |a|
  {
    if a == [] {
      assert a + b == b && before + a == before;
    } else {
      var one, rest := if KeyIn(ts, a[0].k) && !KeyIn(before, a[0].k) then [] else [a[0]], a[1..];
      assert (a + b)[1..] == rest + b && (a + b)[0] == a[0];
      HeadTail(a);
      ConcatAssoc(before, [a[0]], rest);
      MissingConcat(before + [a[0]], rest, b, ts);
      ConcatAssoc(one, Missing(before + [a[0]], rest, ts), Missing(before + a, b, ts));
    }
  }

  /** A new tag is appended if its key is not among the old tags, or repeats one of the new keys before it. */
  lemma {:induction false} MissingHolds(before: seq<Tag>, left: seq<Tag>, ts: seq<Tag>, x: nat)
    requires x < |left| && (!HasKey(ts, left[x].k) || HasKey(before, left[x].k))
    ensures HasKey(Missing(before, left, ts), left[x].k)
    decreases |left|
  {
    MissingCons(before, left, ts);
    if x == 0 {
      assert ([left[0]] + Missing(before + [left[0]], left[1..], ts))[0] == left[0];
    } else {
      var t, rest := left[0], left[1..];
      assert rest[x - 1] == left[x];
      if HasKey(before, left[x].k) {
        HasKeyBefore(before, [t], left[x].k);
      }
      MissingHolds(before + [t], rest, ts, x - 1);
      HasKeyAfter([t], Missing(before + [t], rest, ts), left[x].k);
    }
  }

  lemma HasKeyBefore(a: seq<Tag>, b: seq<Tag>, key: Bytes)
    requires HasKey(a, key)
    ensures HasKey(a + b, key)
  {
    var i :| 0 <= i < |a| && a[i].k == key;
    assert (a + b)[i].k == key;
  }

  lemma HasKeyAfter(a: seq<Tag>, b: seq<Tag>, key: Bytes)
    requires HasKey(b, key)
    ensures HasKey(a + b, key)
  {
    var i :| 0 <= i < |b| && b[i].k == key;
    assert (a + b)[|a| + i].k == key;
  }

  lemma SameKeyTwice(a: seq<Tag>, b: seq<Tag>, key: Bytes)
    requires HasKey(a, key) && HasKey(b, key)
    ensures !Distinct(a + b)
  {
    var i :| 0 <= i < |a| && a[i].k == key;
    var j :| 0 <= j < |b| && b[j].k == key;
    assert (a + b)[i].k == (a + b)[|a| + j].k;
  }

  lemma NotDistinctAfter(a: seq<Tag>, b: seq<Tag>)
    requires !Distinct(b)
    ensures !Distinct(a + b)
  {
    var i, j :| 0 <= i < j < |b| && b[i].k == b[j].k;
    assert (a + b)[|a| + i].k == (a + b)[|a| + j].k;
  }

  lemma RepeatIsMissing(ts: seq<Tag>, a: seq<Tag>, b: seq<Tag>, i: nat, j: nat)
    requires i < |a| && j < |b| && a[i].k == b[j].k
    ensures HasKey(Missing([], a + b, ts), a[i].k)
    ensures !HasKey(ts, a[i].k) ==> !Distinct(Missing([], a + b, ts))
  {
    assert [] + a == a && HasKey(a, b[j].k);
    MissingConcat([], a, b, ts);
    MissingHolds(a, b, ts, j);
    HasKeyAfter(Missing([], a, ts), Missing(a, b, ts), a[i].k);
    if !HasKey(ts, a[i].k) {
      MissingHolds([], a, ts, i);
      SameKeyTwice(Missing([], a, ts), Missing(a, b, ts), a[i].k);
    }
  }

  /** A key that is given twice ends up twice in the text. */
  lemma RepeatedKeyStays(ts: seq<Tag>, news: seq<Tag>, nils: set<Bytes>)
    requires !Distinct(news)
    ensures !Distinct(EventSet(ts, news, nils))
  {
    var i, j :| 0 <= i < j < |news| && news[i].k == news[j].k;
    assert news == news[..i + 1] + news[i + 1..];
    RepeatIsMissing(ts, news[..i + 1], news[i + 1..], i, j - i - 1);
    if HasKey(ts, news[i].k) {
      ReplaceHasKey(ts, Given(news, nils), news[i].k);
      SameKeyTwice(Replace(ts, Given(news, nils)), Missing([], news, ts), news[i].k);
    } else {
      NotDistinctAfter(Replace(ts, Given(news, nils)), Missing([], news, ts));
    }
  }

  lemma ReplaceHasKey(ts: seq<Tag>, news: seq<Tag>, key: Bytes)
    requires HasKey(ts, key)
    ensures HasKey(Replace(ts, news), key)
  {
    var x :| 0 <= x < |ts| && ts[x].k == key;
    ReplaceLength(ts, news);
    assert Replace(ts, news)[x].k == key;
  }

  /**
   A text that validateTags accepts still spells the list that SetTags made of it; and its keys are still distinct,
   if and only if the new keys are.
   */
  lemma EventSetWellFormedIff(text: Bytes, news: seq<Tag>, nils: set<Bytes>)
    requires Split(text).Some? && Distinct(Split(text).value)
    requires AllPlain(news)
    ensures var ts := Split(text).value;
            && Spells(text, ts) && AllPlain(ts)
            && Split(Join(EventSet(ts, news, nils))) == Some(EventSet(ts, news, nils))
            && (Distinct(EventSet(ts, news, nils)) <==> Distinct(news))
  {
    SplitIsPlain(text);
    var ts := Split(text).value;
    var e := EventSet(ts, news, nils);
    GivenIsPlain(news, nils);
    ReplaceIsPlain(ts, Given(news, nils));
    MissingIsPlain([], news, ts);
    SplitInvertsJoin(Join(e), e);
    if Distinct(news) {
      EventSetDistinct(ts, news, nils);
    } else {
      RepeatedKeyStays(ts, news, nils);
    }
  }

  lemma EventSetDistinct(ts: seq<Tag>, news: seq<Tag>, nils: set<Bytes>)
    requires Distinct(ts) && Distinct(news)
    ensures EventSet(ts, news, nils) == Replace(ts, Given(news, nils)) + Keep(news, ts)
    ensures Distinct(EventSet(ts, news, nils))
  {
    assert [] + news == news;
    MissingIsKeep([], news, ts);
    ReplaceLength(ts, Given(news, nils));
    KeepKeys(news, ts);
    KeepDistinct(news, ts);
    assert forall i :: 0 <= i < |ts| ==> HasKey(ts, ts[i].k);
  }
}
