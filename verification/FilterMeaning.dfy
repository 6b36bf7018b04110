/** What rules do to a point, said of their expressions one by one and not of the order in which they are tried. */
module FilterMeaning {
  import opened Bytes
  import opened Collections
  import opened TagBlocks
  import opened FilterRules
  import opened FilterValidation
  import opened FilterEngine

  // ---- When a rule matches -----------------------------------------------------------------------------

  /** What a tag expression is matched against: the value of its tag, or the empty string. */
  function Subject(tags: seq<Tag>, key: Bytes): Bytes {
    match Lookup(tags, key) case Some(v) => v case None => []
  }

  predicate Finds(re: Regexp, src: Bytes) { re.find(src).Some? }

  ghost predicate MetricFinds(p: Program, l: Labels) { p.matchMetric.Some? ==> Finds(p.matchMetric.value, l.metric) }

  /** A tag expression without a key cannot be tried on a point with tags. */
  ghost predicate TagFinds(m: TagMatch, tags: seq<Tag>) {
    (m.key != [] || tags == []) && Finds(m.value, Subject(tags, m.key))
  }

  ghost predicate TagsFind(ms: seq<TagMatch>, tags: seq<Tag>) {
    forall i :: 0 <= i < |ms| ==> TagFinds(ms[i], tags)
  }

  lemma WantedIsSubject(m: TagMatch, tags: seq<Tag>)
    ensures TagSearch(tags, m.key).Crash? <==> m.key == [] && tags != []
    ensures !TagSearch(tags, m.key).Crash? ==> Wanted(TagSearch(tags, m.key)) == Subject(tags, m.key)
  {
  }

  lemma {:induction false} TagsMatchIff(ms: seq<TagMatch>, tags: seq<Tag>, c: Option<Capture>)
    ensures MatchTags(ms, tags, c).Matches? <==> TagsFind(ms, tags)
  {
    if ms != [] {
      WantedIsSubject(ms[0], tags);
      assert TagsFind(ms, tags) <==> TagFinds(ms[0], tags) && TagsFind(ms[1..], tags) by {
        HeadTail(ms);
      }
      if TagFinds(ms[0], tags) {
        var src := Subject(tags, ms[0].key);
        TagsMatchIff(ms[1..], tags, Captured(c, ms[0].value, src, ms[0].value.find(src).value));
      }
    }
  }

  /** A rule matches if and only if its metric expression and all of its tag expressions find something. */
  lemma MatchesIff(p: Program, l: Labels)
    ensures MatchRule(p, l).Matches? <==> MetricFinds(p, l) && TagsFind(p.matchTag, l.tags)
  {
    match p.matchMetric
    case None => TagsMatchIff(p.matchTag, l.tags, None);
    case Some(re) =>
      if re.find(l.metric).Some? {
        TagsMatchIff(p.matchTag, l.tags, Captured(None, re, l.metric, re.find(l.metric).value));
      }
  }

  // ---- What templates refer to -------------------------------------------------------------------------

  /** The i-th tag expression is the first that has groups. */
  ghost predicate FirstWithGroups(ms: seq<TagMatch>, i: int) {
    0 <= i < |ms| && ms[i].value.groups > 0 && forall j :: 0 <= j < i ==> ms[j].value.groups == 0
  }

  ghost predicate NoGroups(ms: seq<TagMatch>) {
    forall i :: 0 <= i < |ms| ==> ms[i].value.groups == 0
  }

  /** What the i-th expression found in its tag. */
  ghost predicate CaptureOfTag(ms: seq<TagMatch>, tags: seq<Tag>, i: int, c: Option<Capture>) {
    0 <= i < |ms| && var src := Subject(tags, ms[i].key);
    Finds(ms[i].value, src) && c == Some(Capture(ms[i].value, src, ms[i].value.find(src).value))
  }

  lemma {:induction false} KeepsCapture(ms: seq<TagMatch>, tags: seq<Tag>, c: Option<Capture>)
    requires MatchTags(ms, tags, c).Matches? && c.Some?
    ensures MatchTags(ms, tags, c) == Matches(c)
  {
    if ms != [] {
      KeepsCapture(ms[1..], tags, c);
    }
  }

  lemma {:induction false} NothingToCapture(ms: seq<TagMatch>, tags: seq<Tag>)
    requires MatchTags(ms, tags, None).Matches? && NoGroups(ms)
    ensures MatchTags(ms, tags, None) == Matches(None)
  {
    if ms != [] {
      NothingToCapture(ms[1..], tags);
    }
  }

  lemma {:induction false} CapturesFirst(ms: seq<TagMatch>, tags: seq<Tag>, i: int)
    requires MatchTags(ms, tags, None).Matches? && FirstWithGroups(ms, i)
    ensures CaptureOfTag(ms, tags, i, MatchTags(ms, tags, None).capture)
  {
    var src := Subject(tags, ms[0].key);
    WantedIsSubject(ms[0], tags);
    if i == 0 {
      KeepsCapture(ms[1..], tags, Some(Capture(ms[0].value, src, ms[0].value.find(src).value)));
    } else {
      CapturesFirst(ms[1..], tags, i - 1);
    }
  }

  /**
   The templates of a rule that matches refer to what its first expression with groups found, the metric's before
   those of the tags; without such an expression to nothing.
   */
  lemma CaptureIsFirst(p: Program, l: Labels)
    requires MatchRule(p, l).Matches?
    ensures var c := MatchRule(p, l).capture;
            && (p.matchMetric.Some? && p.matchMetric.value.groups > 0 ==>
                  Finds(p.matchMetric.value, l.metric)
                  && c == Some(Capture(p.matchMetric.value, l.metric, p.matchMetric.value.find(l.metric).value)))
            && (p.matchMetric.None? || p.matchMetric.value.groups == 0 ==>
                  && (forall i :: FirstWithGroups(p.matchTag, i) ==> CaptureOfTag(p.matchTag, l.tags, i, c))
                  && (NoGroups(p.matchTag) ==> c == None))
  {
    if p.matchMetric.Some? && p.matchMetric.value.groups > 0 {
      var re := p.matchMetric.value;
      KeepsCapture(p.matchTag, l.tags, Some(Capture(re, l.metric, re.find(l.metric).value)));
    } else {
      forall i | FirstWithGroups(p.matchTag, i) ensures CaptureOfTag(p.matchTag, l.tags, i, MatchRule(p, l).capture) {
        CapturesFirst(p.matchTag, l.tags, i);
      }
      if NoGroups(p.matchTag) {
        NothingToCapture(p.matchTag, l.tags);
      }
    }
  }

  // ---- What a rule does --------------------------------------------------------------------------------

  /** A rule that does not match leaves a point alone; one that matches and blocks stops it as it is. */
  lemma RuleDecides(p: Program, l: Labels)
    ensures ApplyRule(p, l).Blocked? <==> p.block && MetricFinds(p, l) && TagsFind(p.matchTag, l.tags)
    ensures ApplyRule(p, l).Blocked? || ApplyRule(p, l).Crashed? ==> ApplyRule(p, l).labels == l
    ensures !(MetricFinds(p, l) && TagsFind(p.matchTag, l.tags)) && !ApplyRule(p, l).Crashed?
            ==> ApplyRule(p, l) == Passed(l)
  {
    MatchesIff(p, l);
  }

  lemma {:induction false} ExpandedAt(c: Option<Capture>, setTag: seq<Bytes>, i: nat, x: nat)
    requires x < |setTag|
    ensures |ExpandTags(c, setTag, i)| == |setTag|
    ensures ExpandTags(c, setTag, i)[x] == if (i + x) % 2 == 0 then setTag[x] else Expand(c, setTag[x])
  {
    if x > 0 {
      ExpandedAt(c, setTag[1..], i + 1, x - 1);
    } else if |setTag| > 1 {
      ExpandedAt(c, setTag[1..], i + 1, 0);
    }
  }

  lemma {:induction false} PairsAt(keyval: seq<Bytes>, x: nat)
    requires |keyval| % 2 == 0 && 2 * x < |keyval|
    ensures |Pairs(keyval)| == |keyval| / 2 && Pairs(keyval)[x] == Tag(keyval[2 * x], keyval[2 * x + 1])
  {
    if x > 0 {
      PairsAt(keyval[2..], x - 1);
    } else if |keyval| > 2 {
      PairsAt(keyval[2..], 0);
    }
  }

  /** The tags that a rule sets: each key with the expansion of its template. */
  function SetTagsOf(p: Program, c: Option<Capture>): (ts: seq<Tag>)
    requires |p.setTag| % 2 == 0
    ensures |ts| == |p.setTag| / 2
    ensures forall x :: 0 <= x < |ts| ==> ts[x] == Tag(p.setTag[2 * x], Expand(c, p.setTag[2 * x + 1]))
  {
    seq(|p.setTag| / 2, x requires 0 <= x < |p.setTag| / 2 => Tag(p.setTag[2 * x], Expand(c, p.setTag[2 * x + 1])))
  }

  lemma SetTagAt(p: Program, c: Option<Capture>, x: nat)
    requires |p.setTag| % 2 == 0 && 2 * x < |p.setTag|
    ensures |ExpandTags(c, p.setTag)| == |p.setTag|
    ensures |Pairs(ExpandTags(c, p.setTag))| == |p.setTag| / 2
    ensures Pairs(ExpandTags(c, p.setTag))[x] == Tag(p.setTag[2 * x], Expand(c, p.setTag[2 * x + 1]))
  {
    ExpandedAt(c, p.setTag, 0, 2 * x);
    ExpandedAt(c, p.setTag, 0, 2 * x + 1);
    PairsAt(ExpandTags(c, p.setTag), x);
  }

  lemma SetTagsAre(p: Program, c: Option<Capture>)
    requires |p.setTag| % 2 == 0
    ensures |ExpandTags(c, p.setTag)| == |p.setTag|
    ensures Pairs(ExpandTags(c, p.setTag)) == SetTagsOf(p, c)
  {
    if p.setTag != [] {
      SetTagAt(p, c, 0);
      forall x | 0 <= x < |p.setTag| / 2 ensures Pairs(ExpandTags(c, p.setTag))[x] == SetTagsOf(p, c)[x] {
        SetTagAt(p, c, x);
      }
    }
  }

  /** The metric after a rule: the expansion of its template, if it sets one. */
  function NewMetric(p: Program, l: Labels, c: Option<Capture>): Bytes {
    match p.setMetric case None => l.metric case Some(template) => Expand(c, template)
  }

  /**
   A rule that matches and does not block: it passes if and only if the metric it sets is valid text and the tags it
   sets can be set; then the metric is the one set, and the tags override those of the point.
   */
  lemma RuleRewrites(p: Program, l: Labels)
    requires MatchRule(p, l).Matches? && !p.block && |p.setTag| % 2 == 0
    ensures var c, o := MatchRule(p, l).capture, ApplyRule(p, l);
            && (o.Passed? <==> (p.setMetric.Some? ==> ValidText(NewMetric(p, l, c)))
                               && (p.setTag != [] ==> SetTagsResult(l.tags, ExpandTags(c, p.setTag)).Tagged?))
            && (o.Passed? || o.Failed?)
            && (o.Passed? ==> o.labels.metric == NewMetric(p, l, c)
                              && ToMap(o.labels.tags) == ToMap(l.tags) + ToMap(SetTagsOf(p, c)))
  {
    var c := MatchRule(p, l).capture;
    SetTagsAre(p, c);
    if p.setTag != [] && SetTagsResult(l.tags, ExpandTags(c, p.setTag)).Tagged? {
      OverrideIsMap(l.tags, SetTagsOf(p, c));
    }
    if p.setTag == [] {
      assert SetTagsOf(p, c) == [];
    }
  }

  // ---- What a filter does ------------------------------------------------------------------------------

  /** The first n rules let the point pass, with these labels. */
  ghost predicate Reaches(ps: seq<Program>, l: Labels, n: int, m: Labels) {
    0 <= n <= |ps| && ApplyRules(ps[..n], l) == Passed(m)
  }

  ghost predicate StopsAt(ps: seq<Program>, l: Labels, n: int, m: Labels) {
    n < |ps| && Reaches(ps, l, n, m) && !ApplyRule(ps[n], m).Passed?
  }

  /** The rules from n on decide about what the rules before it let pass. */
  lemma FromThere(ps: seq<Program>, l: Labels, n: int, m: Labels)
    requires Reaches(ps, l, n, m)
    ensures ApplyRules(ps, l) == ApplyRules(ps[n..], m)
  {
    ApplyConcat(ps[..n], ps[n..], l);
    assert ps[..n] + ps[n..] == ps;
  }

  lemma StopIsFinal(ps: seq<Program>, l: Labels, n: int, m: Labels)
    requires StopsAt(ps, l, n, m)
    ensures ApplyRules(ps, l) == ApplyRule(ps[n], m)
  {
    FromThere(ps, l, n, m);
    assert ps[n..][0] == ps[n];
  }

  lemma {:induction false} SomethingStops(ps: seq<Program>, l: Labels) returns (n: nat, m: Labels)
    requires !ApplyRules(ps, l).Passed?
    ensures StopsAt(ps, l, n, m)
  {
    assert ps[..0] == [];
    var o := ApplyRule(ps[0], l);
    if o.Passed? {
      n, m := SomethingStops(ps[1..], o.labels);
      assert ps[..n + 1][1..] == ps[1..][..n] && ps[..n + 1][0] == ps[0];
      assert ps[1..][n] == ps[n + 1];
      n := n + 1;
    } else {
      n, m := 0, l;
    }
  }

  /** A blocking rule matches the labels that the rules before it left. */
  ghost predicate BlocksAt(ps: seq<Program>, l: Labels, n: int, m: Labels) {
    && n < |ps| && Reaches(ps, l, n, m)
    && ps[n].block && MetricFinds(ps[n], m) && TagsFind(ps[n].matchTag, m.tags)
  }

  /**
   A filter blocks a point if and only if some rule is a blocking rule all of whose expressions find something in the
   labels that the rules before it left. The labels are then those.
   */
  lemma BlockedIff(ps: seq<Program>, l: Labels)
    ensures ApplyRules(ps, l).Blocked? <==> exists n, m :: BlocksAt(ps, l, n, m)
    ensures forall n, m :: BlocksAt(ps, l, n, m) ==> ApplyRules(ps, l) == Blocked(m)
  {
    forall n, m | BlocksAt(ps, l, n, m) ensures ApplyRules(ps, l) == Blocked(m) {
      RuleDecides(ps[n], m);
      StopIsFinal(ps, l, n, m);
    }
    if ApplyRules(ps, l).Blocked? {
      var n, m := SomethingStops(ps, l);
      StopIsFinal(ps, l, n, m);
      RuleDecides(ps[n], m);
      assert BlocksAt(ps, l, n, m);
    }
  }

  /** A rule that matches sets a metric that is not text, or tags that cannot be set. */
  ghost predicate FailsAt(ps: seq<Program>, l: Labels, n: int, m: Labels) {
    && n < |ps| && Reaches(ps, l, n, m) && !ps[n].block && MatchRule(ps[n], m).Matches?
    && var c := MatchRule(ps[n], m).capture;
       || (ps[n].setMetric.Some? && !ValidText(NewMetric(ps[n], m, c)))
       || (ps[n].setTag != [] && SetTagsResult(m.tags, ExpandTags(c, ps[n].setTag)).TagFailure?)
  }

  /** A filter fails on a point if and only if some rule matches and sets what cannot be set. */
  lemma FailedIff(ps: seq<Program>, l: Labels)
    ensures ApplyRules(ps, l).Failed? <==> exists n, m :: FailsAt(ps, l, n, m)
  {
    forall n, m | FailsAt(ps, l, n, m) ensures ApplyRules(ps, l).Failed? {
      StopIsFinal(ps, l, n, m);
    }
    if ApplyRules(ps, l).Failed? {
      var n, m := SomethingStops(ps, l);
      StopIsFinal(ps, l, n, m);
      assert FailsAt(ps, l, n, m);
    }
  }

  // ---- The same, of rules as they are configured --------------------------------------------------------

  lemma {:induction false} TagMatchesAt(re: Compiler, ms: seq<Bytes>, i: nat)
    requires |ms| % 2 == 0 && (forall x :: 0 <= x < |ms| ==> re(ms[x]).Some?) && 2 * i < |ms|
    ensures |TagMatches(re, ms)| == |ms| / 2
    ensures TagMatches(re, ms)[i] == TagMatch(ms[2 * i], re(ms[2 * i + 1]).value)
  {
    if i > 0 {
      TagMatchesAt(re, ms[2..], i - 1);
    } else if |ms| > 2 {
      TagMatchesAt(re, ms[2..], 0);
    }
  }

  /** The expression for the metric, unless it is empty, and those for the tags: key and expression in turn. */
  ghost predicate RuleFinds(re: Compiler, r: Rule, l: Labels)
    requires Validate(re, r) == None
  {
    ScannedAll(re, r.matches);
    && (r.matches != [] && r.matches[0] != [] ==> Finds(re(r.matches[0]).value, l.metric))
    && forall i :: 0 <= i && 2 * i + 2 < |r.matches| ==>
         TagFinds(TagMatch(r.matches[2 * i + 1], re(r.matches[2 * i + 2]).value), l.tags)
  }

  /** What a rule of the configuration is compiled to. */
  lemma CompiledRule(re: Compiler, r: Rule)
    requires Validate(re, r) == None
    ensures var p := NewRule(re, r);
            && p.block == r.block
            && p.matchMetric == (if r.matches != [] && r.matches[0] != [] then re(r.matches[0]) else None)
            && |p.matchTag| == (if r.matches == [] then 0 else (|r.matches| - 1) / 2)
            && (forall i :: 0 <= i < |p.matchTag| ==>
                  re(r.matches[2 * i + 2]).Some?
                  && p.matchTag[i] == TagMatch(r.matches[2 * i + 1], re(r.matches[2 * i + 2]).value))
            && p.setMetric == (if r.sets != [] && r.sets[0] != [] then Some(r.sets[0]) else None)
            && p.setTag == (if r.sets == [] then [] else r.sets[1..]) && |p.setTag| % 2 == 0
  {
    AcceptedIff(re, r);
    ScannedAll(re, r.matches);
    if |r.matches| > 1 {
      var ms := r.matches[1..];
      assert forall x :: 0 <= x < |ms| ==> ms[x] == r.matches[x + 1];
      TagMatchesAt(re, ms, 0);
      forall i | 0 <= i < |ms| / 2 ensures TagMatches(re, ms)[i] == TagMatch(ms[2 * i], re(ms[2 * i + 1]).value) {
        TagMatchesAt(re, ms, i);
      }
    }
  }

  lemma RuleFindsIff(re: Compiler, r: Rule, l: Labels)
    requires Validate(re, r) == None
    ensures var p := NewRule(re, r); MetricFinds(p, l) && TagsFind(p.matchTag, l.tags) <==> RuleFinds(re, r, l)
  {
    AcceptedIff(re, r);
    CompiledRule(re, r);
    var p := NewRule(re, r);
    if RuleFinds(re, r, l) {
      forall i | 0 <= i < |p.matchTag| ensures TagFinds(p.matchTag[i], l.tags) {
        assert 2 * i + 2 < |r.matches|;
      }
    }
    if TagsFind(p.matchTag, l.tags) {
      forall i | 0 <= i && 2 * i + 2 < |r.matches|
        ensures re(r.matches[2 * i + 2]).Some?
                && TagFinds(TagMatch(r.matches[2 * i + 1], re(r.matches[2 * i + 2]).value), l.tags)
      {
        assert i < |p.matchTag| && TagFinds(p.matchTag[i], l.tags);
      }
    }
  }

  /** The n-th rule is a blocking one, and finds what it looks for in the labels that the rules before it left. */
  ghost predicate RuleBlocksAt(re: Compiler, rules: seq<Rule>, l: Labels, n: int, m: Labels)
    requires AllAccepted(re, rules)
  {
    && 0 <= n < |rules| && ApplyRules(Compiled(re, rules)[..n], l) == Passed(m)
    && rules[n].block && RuleFinds(re, rules[n], m)
  }

  /** A configured filter blocks a point if and only if one of its blocking rules finds all it looks for. */
  lemma ConfiguredBlockedIff(re: Compiler, rules: seq<Rule>, l: Labels)
    requires AllAccepted(re, rules)
    ensures ApplyRules(Compiled(re, rules), l).Blocked? <==> exists n, m :: RuleBlocksAt(re, rules, l, n, m)
  {
    var ps := Compiled(re, rules);
    BlockedIff(ps, l);
    forall n, m ensures BlocksAt(ps, l, n, m) <==> RuleBlocksAt(re, rules, l, n, m) {
      if 0 <= n < |rules| {
        CompiledRule(re, rules[n]);
        RuleFindsIff(re, rules[n], m);
      }
    }
  }
}
