/**
 The filter as it runs: slices of shared scratch arrays, appended to in place while they have room. Nothing of
 this sharing is visible: a run equals the pure fold of FilterRules.
 */
module FilterEngine {
  import opened Bytes
  import opened Collections
  import opened TagBlocks
  import opened FilterRules
  import opened FilterValidation

  const SCRATCH: nat := 128

  // ---- Go slices ---------------------------------------------------------------------------------------

  /** A window of an array; an append may write on, up to the end of the array. */
  datatype Slice = Slice(arr: array<byte>, off: nat, len: nat) {
    predicate Valid() { off + len <= arr.Length }

    function Text(): Bytes
      requires Valid()
      reads arr
    {
      arr[off..off + len]
    }

    predicate HasRoom(n: nat) { off + len + n <= arr.Length }
  }

  lemma SubText(s: Slice, lo: nat, hi: nat)
    requires s.Valid() && lo <= hi <= s.len
    ensures s.Text()[lo..hi] == s.arr[s.off + lo..s.off + hi]
  {
    var a, b := s.Text()[lo..hi], s.arr[s.off + lo..s.off + hi];
    forall k | 0 <= k < hi - lo ensures a[k] == b[k] {
      assert a[k] == s.arr[s.off + lo + k];
    }
  }

  /** Go's append: in place if there is room, else into a new array of any sufficient size. */
  method Append(dst: Slice, src: Bytes) returns (r: Slice)
    requires dst.Valid()
    modifies dst.arr
    ensures r.Valid() && r.Text() == old(dst.Text()) + src && r.len == dst.len + |src|
    ensures if dst.HasRoom(|src|) then r.arr == dst.arr && r.off == dst.off else fresh(r.arr)
    ensures forall k :: 0 <= k < dst.off + dst.len ==> dst.arr[k] == old(dst.arr[k])
  {
    var n := dst.len + |src|;
    if dst.HasRoom(|src|) {
      forall k | 0 <= k < |src| {
        dst.arr[dst.off + dst.len + k] := src[k];
      }
      r := Slice(dst.arr, dst.off, n);
    } else {
      var spare :| 0 <= spare;
      var grown := new byte[n + spare];
      forall k | 0 <= k < n {
        grown[k] := if k < dst.len then dst.arr[dst.off + k] else src[k - dst.len];
      }
      r := Slice(grown, 0, n);
    }
    ghost var want := old(dst.Text()) + src;
    forall k | 0 <= k < n ensures r.Text()[k] == want[k] {
      assert r.Text()[k] == r.arr[r.off + k];
      assert want[k] == if k < dst.len then old(dst.arr[dst.off + k]) else src[k - dst.len];
    }
    assert r.Text() == want;
  }

  /** An argument of SetTags: a key of the rule, or a value in scratch memory. */
  datatype Text = Fixed(bytes: Bytes) | Shared(slice: Slice) {
    predicate Valid() { Shared? ==> slice.Valid() }

    function Read(): Bytes
      requires Valid()
      reads if Shared? then {slice.arr} else {}
    {
      if Shared? then slice.Text() else bytes
    }
  }

  ghost predicate Spell(args: seq<Text>, texts: seq<Bytes>)
    reads set t | t in args && t.Shared? :: t.slice.arr
  {
    |args| == |texts| && forall i :: 0 <= i < |args| ==> args[i].Valid() && args[i].Read() == texts[i]
  }

  method Texts(args: seq<Text>, ghost texts: seq<Bytes>) returns (r: seq<Bytes>)
    requires Spell(args, texts)
    ensures r == texts
  {
    r := [];
    for i := 0 to |args|
      invariant r == texts[..i]
    {
      r := r + [args[i].Read()];
    }
  }

  // ---- The point ---------------------------------------------------------------------------------------

  /** The point as a filter sees it; its metric and its tags are overwritten in place. */
  class FilterPoint {
    var metric: Slice
    var tags: Slice
    ghost var list: seq<Tag>

    ghost predicate Valid()
      reads this, metric.arr, tags.arr
    {
      && metric.Valid() && tags.Valid() && metric.arr != tags.arr
      && tags.Text() == Block(list) && AllValid(list)
    }

    ghost function Seen(): Labels
      requires Valid()
      reads this, metric.arr, tags.arr
    {
      Labels(metric.Text(), list)
    }

    /** The value is a slice of the tag block itself. */
    method Tag(key: Bytes) returns (crash: bool, v: Option<Slice>)
      requires Valid()
      ensures match TagSearch(list, key)
              case Crash => crash
              case Miss => !crash && v == None
              case Hit(value) =>
                !crash && v.Some? && v.value.arr == tags.arr && v.value.Valid() && v.value.Text() == value
    {
      var verdict, lo, hi := TagRange(tags.Text(), key, list);
      if verdict == Crashes {
        return true, None;
      }
      if verdict != Found {
        return false, None;
      }
      SubText(tags, lo, hi);
      return false, Some(Slice(tags.arr, tags.off + lo, hi - lo));
    }

    method SetMetric(s: Slice) returns (ok: bool)
      requires Valid() && s.Valid() && s.arr != metric.arr && s.arr != tags.arr
      modifies this`metric, metric.arr
      ensures Valid() && (metric.arr == old(metric.arr) || fresh(metric.arr))
      ensures ok == ValidText(s.Text())
      ensures Seen() == if ok then old(Seen()).(metric := s.Text()) else old(Seen())
    {
      var text := s.Text();
      if !ValidText(text) {
        return false;
      }
      metric := Append(metric.(len := 0), text);
      return true;
    }

    method SetTags(keyval: seq<Text>, ghost texts: seq<Bytes>) returns (err: Option<TagError>)
      requires Valid() && Spell(keyval, texts)
      modifies this`tags, this`list, tags.arr
      ensures Valid() && (tags.arr == old(tags.arr) || fresh(tags.arr))
      ensures match SetTagsResult(old(list), texts)
              case Tagged(r) => err == None && Seen() == old(Seen()).(tags := r)
              case TagFailure(e) => err == Some(e) && Seen() == old(Seen())
    {
      var block;
      var args := Texts(keyval, texts);
      PlainTags(list);
      err, block := NewBlock(tags.Text(), args, list);
      if err.None? {
        ResultIsValid(list, args);
        tags := Append(tags.(len := 0), block);
        list := SetTagsResult(list, args).tags;
      }
    }
  }

  lemma PlainTags(ts: seq<Tag>)
    requires AllValid(ts)
    ensures AllPlain(ts)
  {
    forall i | 0 <= i < |ts| ensures Plain(ts[i]) {
      ValidIsPlain(ts[i]);
    }
  }

  lemma JoinNext(text: Bytes, pieces: seq<Bytes>, i: nat)
    requires i < |pieces|
    ensures |Join(pieces[i..])| == |pieces[i]| + |Join(pieces[i + 1..])|
    ensures text + Join(pieces[i..]) == (text + pieces[i]) + Join(pieces[i + 1..])
  {
    assert pieces[i..][1..] == pieces[i + 1..];
    ConcatAssoc(text, pieces[i], Join(pieces[i + 1..]));
  }

  // ---- Submatch data -----------------------------------------------------------------------------------

  class Submatch {
    var re: Option<Regexp>
    var src: Slice
    var found: seq<int>
    const srcBuf: array<byte>

    constructor ()
      ensures fresh(srcBuf) && Valid() && re == None && src.arr == srcBuf
    {
      re, found := None, [];
      var buf := new byte[SCRATCH];
      srcBuf := buf;
      src := Slice(buf, 0, 0);
    }

    ghost predicate Valid()
      reads this
    {
      re.Some? ==> src.Valid()
    }

    ghost function Held(): Option<Capture>
      requires Valid()
      reads this, src.arr
    {
      match re case None => None case Some(r) => Some(Capture(r, src.Text(), found))
    }

    method Reset()
      modifies this`re
      ensures Valid() && Held() == None
    {
      re := None;
    }

    /** The text is copied, so that later writes to the point do not change what templates see. */
    method Set(r: Regexp, text: Slice, m: seq<int>)
      requires text.Valid() && text.arr != srcBuf
      modifies this, srcBuf
      ensures Valid() && Held() == Some(Capture(r, old(text.Text()), m))
      ensures src.arr == srcBuf || fresh(src.arr)
    {
      re, found := Some(r), m;
      ghost var copied := text.Text();
      src := Append(Slice(srcBuf, 0, 0), text.Text());
      assert src.Text() == copied;
    }

    /** Matches one expression, and keeps its match if it is the first with groups. */
    method Observe(r: Regexp, text: Slice) returns (ok: bool)
      requires Valid() && text.Valid() && text.arr != srcBuf && (re.Some? ==> src.arr != text.arr)
      modifies this, srcBuf
      ensures Valid()
      ensures re.Some? ==> (old(re.Some?) && src.arr == old(src.arr)) || src.arr == srcBuf || fresh(src.arr)
      ensures match r.find(old(text.Text()))
              case None => !ok
              case Some(m) => ok && Held() == Captured(old(Held()), r, old(text.Text()), m)
    {
      var m := r.find(text.Text());
      if m.None? {
        return false;
      }
      if re.None? && r.groups > 0 {
        Set(r, text, m.value);
      }
      ok := true;
    }

    /** Appends the expansion of a template, piece by piece, reading the held text as it goes. */
    method ExpandInto(dst: Slice, template: Bytes) returns (r: Slice)
      requires Valid() && dst.Valid() && (re.Some? ==> src.arr != dst.arr)
      modifies dst.arr
      ensures var e := Expand(Held(), template);
              && Held() == old(Held())
              && r.Valid() && r.Text() == old(dst.Text()) + e && r.len == dst.len + |e|
              && if dst.HasRoom(|e|) then r.arr == dst.arr && r.off == dst.off else fresh(r.arr)
      ensures forall k :: 0 <= k < dst.off + dst.len ==> dst.arr[k] == old(dst.arr[k])
    {
      if re.None? {
        r := Append(dst, template);
        return;
      }
      r := dst;
      ghost var pieces := re.value.expand(template, src.Text(), found);
      ghost var base := dst.Text();
      assert pieces[0..] == pieces;
      var i := 0;
      while i < |re.value.expand(template, src.Text(), found)|
        invariant 0 <= i <= |pieces| && Held() == old(Held())
        invariant r.Valid() && r.len >= dst.len && r.len + |Join(pieces[i..])| == dst.len + |Join(pieces)|
        invariant r.Text() + Join(pieces[i..]) == base + Join(pieces)
        invariant if r.arr == dst.arr then r.off == dst.off else fresh(r.arr) && !dst.HasRoom(|Join(pieces)|)
        invariant forall k :: 0 <= k < dst.off + dst.len ==> dst.arr[k] == old(dst.arr[k])
      {
        var piece := re.value.expand(template, src.Text(), found)[i];
        JoinNext(r.Text(), pieces, i);
        r := Append(r, piece);
        i := i + 1;
      }
      assert r.Text() == base + Join(pieces);
    }
  }

  // ---- Rules -------------------------------------------------------------------------------------------

  lemma {:induction false} ExpandTagsAt(c: Option<Capture>, setTag: seq<Bytes>, i: nat, j: nat)
    requires j < |setTag|
    ensures |ExpandTags(c, setTag, i)| == |setTag|
    ensures ExpandTags(c, setTag, i)[j] == if (i + j) % 2 == 0 then setTag[j] else Expand(c, setTag[j])
  {
    if j > 0 {
      ExpandTagsAt(c, setTag[1..], i + 1, j - 1);
    } else if |setTag| > 1 {
      ExpandTagsAt(c, setTag[1..], i + 1, 0);
    }
  }

  /** What a caller of Match learns. */
  ghost predicate MatchTells(m: Matching, ok: bool, crash: bool, held: Option<Capture>) {
    match m
    case NoMatch => !ok && !crash
    case Matches(c) => ok && !crash && held == c
    case MatchCrash => !ok && crash
  }

  /** What Eval comes to: accepted or not, the error, whether it crashed, and the labels left behind. */
  ghost predicate Tells(o: Outcome, pass: bool, err: Option<RuleFailure>, crashed: bool, l: Labels) {
    l == o.labels && pass == o.Passed? && crashed == o.Crashed? && err == if o.Failed? then Some(o.error) else None
  }

  class RuleEngine {
    const prog: Program
    const metricBuf: array<byte>
    const tagvBuf: array<byte>

    constructor (p: Program)
      ensures prog == p && fresh(metricBuf) && fresh(tagvBuf) && metricBuf != tagvBuf
    {
      prog := p;
      metricBuf := new byte[SCRATCH];
      tagvBuf := new byte[SCRATCH];
    }

    /** The metric first, then each tag; the first expression with groups leaves its match in s. */
    method Match(p: FilterPoint, s: Submatch) returns (ok: bool, crash: bool)
      requires p.Valid() && s.re.None?
      requires p.metric.arr != s.srcBuf && p.tags.arr != s.srcBuf
      modifies s, s.srcBuf
      ensures s.Valid() && (s.re.Some? ==> s.src.arr == s.srcBuf || fresh(s.src.arr))
      ensures p.Valid() && p.Seen() == old(p.Seen())
      ensures MatchTells(MatchRule(prog, p.Seen()), ok, crash, s.Held())
    {
      if prog.matchMetric.Some? {
        ok := s.Observe(prog.matchMetric.value, p.metric);
        if !ok {
          return false, false;
        }
      }
      ok, crash := MatchEach(p, s);
    }

    method MatchEach(p: FilterPoint, s: Submatch) returns (ok: bool, crash: bool)
      requires p.Valid() && s.Valid()
      requires p.metric.arr != s.srcBuf && p.tags.arr != s.srcBuf
      requires s.re.Some? ==> s.src.arr != p.tags.arr && s.src.arr != p.metric.arr
      modifies s, s.srcBuf
      ensures s.Valid()
      ensures s.re.Some? ==>
                (old(s.re.Some?) && s.src.arr == old(s.src.arr)) || s.src.arr == s.srcBuf || fresh(s.src.arr)
      ensures MatchTells(MatchTags(prog.matchTag, old(p.list), old(s.Held())), ok, crash, s.Held())
    {
      var ms := prog.matchTag;
      assert ms[0..] == ms;
      var i := 0;
      while i < |ms|
        invariant 0 <= i <= |ms|
        invariant s.Valid()
        invariant s.re.Some? ==>
                    (old(s.re.Some?) && s.src.arr == old(s.src.arr)) || s.src.arr == s.srcBuf || fresh(s.src.arr)
        invariant MatchTags(ms[i..], p.list, s.Held()) == MatchTags(ms, p.list, old(s.Held()))
      {
        MatchCons(ms, i, p.list, s.Held());
        ok, crash := MatchOne(p, s, ms[i]);
        if !ok {
          return;
        }
        i := i + 1;
      }
      return true, false;
    }

    /** The body of the loop over the tag expressions. */
    method MatchOne(p: FilterPoint, s: Submatch, m: TagMatch) returns (ok: bool, crash: bool)
      requires p.Valid() && s.Valid()
      requires p.metric.arr != s.srcBuf && p.tags.arr != s.srcBuf
      requires s.re.Some? ==> s.src.arr != p.tags.arr && s.src.arr != p.metric.arr
      modifies s, s.srcBuf
      ensures s.Valid()
      ensures s.re.Some? ==>
                (old(s.re.Some?) && s.src.arr == old(s.src.arr)) || s.src.arr == s.srcBuf || fresh(s.src.arr)
      ensures MatchTells(MatchTags([m], old(p.list), old(s.Held())), ok, crash, s.Held())
    {
      MatchSingle(m, p.list, s.Held());
      var src;
      crash, src := p.Tag(m.key);
      if crash {
        return false, true;
      }
      if src.None? {
        var empty := new byte[0];
        src := Some(Slice(empty, 0, 0));
      }
      assert src.value.Text() == Wanted(TagSearch(p.list, m.key));
      ok := s.Observe(m.value, src.value);
    }

    lemma MatchSingle(m: TagMatch, tags: seq<Tag>, c: Option<Capture>)
      ensures var tag := TagSearch(tags, m.key);
              MatchTags([m], tags, c)
              == if tag.Crash? then MatchCrash
                 else match m.value.find(Wanted(tag))
                   case None => NoMatch
                   case Some(found) => Matches(Captured(c, m.value, Wanted(tag), found))
    {
      assert [m][1..] == [];
    }

    lemma MatchCons(ms: seq<TagMatch>, i: nat, tags: seq<Tag>, c: Option<Capture>)
      requires i < |ms|
      ensures MatchTags(ms[i..], tags, c)
           == match MatchTags([ms[i]], tags, c)
              case Matches(d) => MatchTags(ms[i + 1..], tags, d)
              case other => other
    {
      assert ms[i..][1..] == ms[i + 1..] && [ms[i]][1..] == [];
    }

    /**
     The values share one scratch buffer, each starting where the one before it ended; a value that does not
     fit gets memory of its own. No value is disturbed by a later one.
     */
    method ExpandValues(s: Submatch) returns (args: seq<Text>)
      requires s.Valid() && (s.re.Some? ==> s.src.arr != tagvBuf)
      modifies tagvBuf
      ensures Spell(args, ExpandTags(s.Held(), prog.setTag))
      ensures s.Held() == old(s.Held())
    {
      var off: nat := 0;
      args := [];
      ghost var want := ExpandTags(s.Held(), prog.setTag);
      if prog.setTag != [] {
        ExpandTagsAt(s.Held(), prog.setTag, 0, 0);
      }
      for i := 0 to |prog.setTag|
        invariant AllSettled(args, off) && s.Held() == old(s.Held()) && |want| == |prog.setTag|
        invariant Spell(args, want[..i])
      {
        TakeOneMore(want, i);
        args, off := ExpandNext(s, args, off, i, want);
      }
      assert want[..|want|] == want;
    }

    /** The body of the loop over SetTag: a key as it is, or a value expanded. */
    method ExpandNext(s: Submatch, args0: seq<Text>, off: nat, i: nat, ghost want: seq<Bytes>)
      returns (args: seq<Text>, next: nat)
      requires s.Valid() && (s.re.Some? ==> s.src.arr != tagvBuf) && AllSettled(args0, off)
      requires i < |prog.setTag| == |want| && want == ExpandTags(s.Held(), prog.setTag) && Spell(args0, want[..i])
      modifies tagvBuf
      ensures AllSettled(args, next) && Spell(args, want[..i] + [want[i]]) && s.Held() == old(s.Held())
    {
      ExpandTagsAt(s.Held(), prog.setTag, 0, i);
      if i % 2 == 0 {
        AddFixed(args0, want[..i], prog.setTag[i], off);
        return args0 + [Fixed(prog.setTag[i])], off;
      }
      args, next := ExpandValue(s, prog.setTag[i], args0, off, want[..i], want[i]);
    }

    lemma AddFixed(args: seq<Text>, texts: seq<Bytes>, key: Bytes, off: nat)
      requires Spell(args, texts) && AllSettled(args, off)
      ensures Spell(args + [Fixed(key)], texts + [key]) && AllSettled(args + [Fixed(key)], off)
    {
    }

    method ExpandValue(s: Submatch, elem: Bytes, args0: seq<Text>, off: nat, ghost texts: seq<Bytes>, ghost text: Bytes)
      returns (args: seq<Text>, next: nat)
      requires s.Valid() && (s.re.Some? ==> s.src.arr != tagvBuf) && AllSettled(args0, off) && Spell(args0, texts)
      requires text == Expand(s.Held(), elem)
      modifies tagvBuf
      ensures AllSettled(args, next) && Spell(args, texts + [text])
      ensures s.Held() == old(s.Held())
    {
      var tagv := s.ExpandInto(Slice(tagvBuf, off, 0), elem);
      next := if tagv.len <= tagvBuf.Length - off then off + tagv.len else off;
      args := args0 + [Shared(tagv)];
      forall i | 0 <= i < |args0| ensures args0[i].Read() == old(args0[i].Read()) {
        assert Settled(args0[i], off);
        if InBuf(args0[i]) {
          SameText(args0[i].slice, old(tagvBuf[..]), off);
        }
      }
      assert tagv.Text() == [] + text == text;
      AddShared(args0, texts, tagv, text, off, next);
    }

    lemma AddShared(args: seq<Text>, texts: seq<Bytes>, s: Slice, text: Bytes, off: nat, next: nat)
      requires Spell(args, texts) && AllSettled(args, off) && s.Valid() && s.Text() == text
      requires off <= next <= tagvBuf.Length && (s.arr == tagvBuf ==> s.off + s.len <= next)
      ensures Spell(args + [Shared(s)], texts + [text]) && AllSettled(args + [Shared(s)], next)
    {
    }

    /** What lies before off in the scratch buffer reads as it did. */
    lemma SameText(s: Slice, before: seq<byte>, off: nat)
      requires s.arr == tagvBuf && s.Valid() && s.off + s.len <= off && |before| == tagvBuf.Length
      requires forall k :: 0 <= k < off && k < tagvBuf.Length ==> tagvBuf[k] == before[k]
      ensures s.Text() == before[s.off..s.off + s.len]
    {
    }

    /** Values that live in the scratch buffer lie before the free part. */
    ghost predicate AllSettled(args: seq<Text>, off: nat) {
      off <= tagvBuf.Length && forall i :: 0 <= i < |args| ==> args[i].Valid() && Settled(args[i], off)
    }

    predicate InBuf(t: Text) { t.Shared? && t.slice.arr == tagvBuf }

    ghost predicate Settled(t: Text, off: nat) {
      InBuf(t) ==> t.slice.off + t.slice.len <= off
    }

    /** Nothing that Rewrite writes before it reads is shared. */
    ghost predicate Apart(p: FilterPoint, s: Submatch)
      reads p, s
    {
      && p.metric.arr != metricBuf && p.metric.arr != tagvBuf && p.tags.arr != metricBuf && p.tags.arr != tagvBuf
      && (s.re.Some? ==> s.src.arr != metricBuf && s.src.arr != tagvBuf && s.src.arr != p.metric.arr)
    }

    method Rewrite(p: FilterPoint, s: Submatch) returns (err: Option<RuleFailure>)
      requires p.Valid() && s.Valid() && Apart(p, s)
      modifies p, p.metric.arr, p.tags.arr, metricBuf, tagvBuf
      ensures p.Valid()
      ensures p.metric.arr == old(p.metric.arr) || fresh(p.metric.arr)
      ensures p.tags.arr == old(p.tags.arr) || fresh(p.tags.arr)
      ensures Tells(FilterRules.Rewrite(prog, old(p.Seen()), old(s.Held())), err.None?, err, false, p.Seen())
    {
      if prog.setMetric.Some? {
        var ok := SetMetric(p, s, prog.setMetric.value);
        if !ok {
          return Some(InvalidMetric);
        }
      }
      ghost var l, c := p.Seen(), s.Held();
      assert RewriteMetric(prog, old(p.Seen()), c) == Passed(l);
      err := SetTags(p, s);
    }

    method SetTags(p: FilterPoint, s: Submatch) returns (err: Option<RuleFailure>)
      requires p.Valid() && s.Valid() && Apart(p, s)
      modifies p`tags, p`list, p.tags.arr, tagvBuf
      ensures p.Valid() && (p.tags.arr == old(p.tags.arr) || fresh(p.tags.arr))
      ensures Tells(RewriteTags(prog, old(p.Seen()), old(s.Held())), err.None?, err, false, p.Seen())
    {
      if prog.setTag == [] {
        return None;
      }
      ghost var texts := ExpandTags(s.Held(), prog.setTag);
      var args := ExpandValues(s);
      var e := p.SetTags(args, texts);
      return if e.Some? then Some(InvalidTags(e.value)) else None;
    }

    method SetMetric(p: FilterPoint, s: Submatch, template: Bytes) returns (ok: bool)
      requires p.Valid() && s.Valid() && Apart(p, s)
      modifies p`metric, p.metric.arr, metricBuf
      ensures p.Valid() && Apart(p, s) && s.Held() == old(s.Held())
      ensures p.metric.arr == old(p.metric.arr) || fresh(p.metric.arr)
      ensures var metric := Expand(s.Held(), template);
              ok == ValidText(metric) && p.Seen() == if ok then old(p.Seen()).(metric := metric) else old(p.Seen())
    {
      var metric := s.ExpandInto(Slice(metricBuf, 0, 0), template);
      assert metric.Text() == Expand(s.Held(), template);
      ok := p.SetMetric(metric);
    }
  }

  // ---- The filter --------------------------------------------------------------------------------------

  function Programs(rules: seq<RuleEngine>): seq<Program> {
    if rules == [] then [] else [rules[0].prog] + Programs(rules[1..])
  }

  class Filter {
    const rules: seq<RuleEngine>
    const submatch: Submatch

    constructor (rs: seq<RuleEngine>, s: Submatch)
      ensures rules == rs && submatch == s
    {
      rules := rs;
      submatch := s;
    }

    function Buffers(): set<array<byte>> {
      (set r | r in rules :: r.metricBuf) + (set r | r in rules :: r.tagvBuf)
    }

    ghost predicate Valid() {
      submatch.srcBuf !in Buffers()
    }

    /** A point has memory of its own. */
    ghost predicate Separate(p: FilterPoint)
      reads p
    {
      p.metric.arr !in Buffers() + {submatch.srcBuf} && p.tags.arr !in Buffers() + {submatch.srcBuf}
    }

    /** One pass of the rules over a point is the fold of their meanings. */
    method Eval(p: FilterPoint) returns (pass: bool, err: Option<RuleFailure>, crashed: bool)
      requires Valid() && p.Valid() && Separate(p)
      modifies p, p.metric.arr, p.tags.arr, submatch, submatch.srcBuf, Buffers()
      ensures p.Valid() && Separate(p)
      ensures Tells(ApplyRules(Programs(rules), old(p.Seen())), pass, err, crashed, p.Seen())
    {
      var i := 0;
      assert rules[0..] == rules;
      while i < |rules|
        invariant 0 <= i <= |rules| && p.Valid() && Separate(p)
        invariant p.metric.arr == old(p.metric.arr) || fresh(p.metric.arr)
        invariant p.tags.arr == old(p.tags.arr) || fresh(p.tags.arr)
        invariant ApplyRules(Programs(rules[i..]), p.Seen()) == ApplyRules(Programs(rules), old(p.Seen()))
      {
        assert rules[i..][1..] == rules[i + 1..];
        pass, err, crashed := Step(p, rules[i]);
        if !pass {
          return;
        }
        i := i + 1;
      }
      return true, None, false;
    }

    /** The body of the loop over the rules. */
    method Step(p: FilterPoint, rule: RuleEngine) returns (pass: bool, err: Option<RuleFailure>, crashed: bool)
      requires Valid() && p.Valid() && Separate(p) && rule in rules
      modifies p, p.metric.arr, p.tags.arr, submatch, submatch.srcBuf, rule.metricBuf, rule.tagvBuf
      ensures p.Valid() && Separate(p)
      ensures p.metric.arr == old(p.metric.arr) || fresh(p.metric.arr)
      ensures p.tags.arr == old(p.tags.arr) || fresh(p.tags.arr)
      ensures Tells(ApplyRule(rule.prog, old(p.Seen())), pass, err, crashed, p.Seen())
    {
      submatch.Reset();
      var ok;
      ok, crashed := rule.Match(p, submatch);
      if crashed {
        return false, None, true;
      }
      if !ok {
        return true, None, false;
      }
      if rule.prog.block {
        return false, None, false;
      }
      ghost var l, c := p.Seen(), submatch.Held();
      assert ApplyRule(rule.prog, l) == FilterRules.Rewrite(rule.prog, l, c);
      err := rule.Rewrite(p, submatch);
      StillSeparate(p);
      return err.None?, err, false;
    }

    /** What the point moved to is memory of its own. */
    twostate lemma StillSeparate(p: FilterPoint)
      requires old(Separate(p))
      requires p.metric.arr == old(p.metric.arr) || fresh(p.metric.arr)
      requires p.tags.arr == old(p.tags.arr) || fresh(p.tags.arr)
      ensures Separate(p)
    {
    }
  }

  ghost predicate AllAccepted(re: Compiler, configs: seq<Rule>) {
    forall i :: 0 <= i < |configs| ==> Validate(re, configs[i]) == None
  }

  ghost function Compiled(re: Compiler, configs: seq<Rule>): (ps: seq<Program>)
    requires AllAccepted(re, configs)
    ensures |ps| == |configs|
    ensures forall i :: 0 <= i < |ps| ==> ps[i] == NewRule(re, configs[i])
  {
    if configs == [] then [] else [NewRule(re, configs[0])] + Compiled(re, configs[1..])
  }

  lemma {:induction false} ProgramsSnoc(rules: seq<RuleEngine>, rule: RuleEngine)
    ensures Programs(rules + [rule]) == Programs(rules) + [rule.prog]
  {
    if rules == [] {
      assert [] + [rule] == [rule] && [rule][1..] == [];
    } else {
      assert (rules + [rule])[1..] == rules[1..] + [rule];
      ProgramsSnoc(rules[1..], rule);
      ConcatAssoc([rules[0].prog], Programs(rules[1..]), [rule.prog]);
    }
  }

  /** No rule writes to the given memory. */
  predicate Avoid(rules: seq<RuleEngine>, other: array<byte>) {
    forall i :: 0 <= i < |rules| ==> rules[i].metricBuf != other && rules[i].tagvBuf != other
  }

  /** The rules built so far. */
  ghost predicate Built(rules: seq<RuleEngine>, ps: seq<Program>, i: nat, other: array<byte>) {
    i <= |ps| && Programs(rules) == ps[..i] && Avoid(rules, other)
  }

  lemma BuildOne(rules: seq<RuleEngine>, rule: RuleEngine, ps: seq<Program>, i: nat, other: array<byte>)
    requires Built(rules, ps, i, other) && i < |ps| && rule.prog == ps[i]
    requires rule.metricBuf != other && rule.tagvBuf != other
    ensures Built(rules + [rule], ps, i + 1, other)
  {
    ProgramsSnoc(rules, rule);
    assert ps[..i + 1] == ps[..i] + [ps[i]];
  }

  method ValidateRules(re: Compiler, configs: seq<Rule>) returns (ok: bool)
    ensures ok <==> configs != [] && AllAccepted(re, configs)
  {
    if configs == [] {
      return false;
    }
    for i := 0 to |configs|
      invariant forall j :: 0 <= j < i ==> Validate(re, configs[j]) == None
    {
      var err := ValidateRule(re, configs[i]);
      if err.Some? {
        return false;
      }
    }
    return true;
  }

  /** A filter is built exactly from a non-empty list of accepted rules. */
  method New(re: Compiler, configs: seq<Rule>) returns (f: Option<Filter>)
    ensures f.Some? <==> configs != [] && AllAccepted(re, configs)
    ensures f.Some? ==> fresh(f.value) && Programs(f.value.rules) == Compiled(re, configs)
    ensures f.Some? ==> f.value.Valid()
  {
    var ok := ValidateRules(re, configs);
    if !ok {
      return None;
    }
    var submatch := new Submatch();
    var rules := NewRules(re, configs, submatch.srcBuf);
    var filter := new Filter(rules, submatch);
    return Some(filter);
  }

  method NewRules(re: Compiler, configs: seq<Rule>, ghost other: array<byte>) returns (rules: seq<RuleEngine>)
    requires AllAccepted(re, configs)
    ensures Programs(rules) == Compiled(re, configs)
    ensures Avoid(rules, other)
  {
    rules := [];
    ghost var ps := Compiled(re, configs);
    for i := 0 to |configs|
      invariant Built(rules, ps, i, other)
    {
      var rule := new RuleEngine(NewRule(re, configs[i]));
      BuildOne(rules, rule, ps, i, other);
      rules := rules + [rule];
    }
    assert ps[..|ps|] == ps;
  }
}
