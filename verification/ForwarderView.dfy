/** The forwarder configuration: custom rules, then rules that supply the host and cluster tags if missing. */
module ForwarderView {
  import opened Bytes
  import opened TagBlocks
  import opened FilterRules
  import opened FilterValidation
  import opened FilterEngine

  const CLUSTER_KEY: Bytes := [99, 108, 117, 115, 116, 101, 114]
  const CARET_DOLLAR: Bytes := [94, 36]

  function DefaultRule(key: Bytes, value: Bytes): Rule {
    Rule([[], key, CARET_DOLLAR], [[], key, value], false)
  }

  function NewView(custom: seq<Rule>, hostID: Bytes): seq<Rule> {
    custom + [DefaultRule(HOST, hostID)]
  }

  function View(custom: seq<Rule>, hostID: Bytes, clusterID: Bytes): seq<Rule> {
    NewView(custom, hostID) + (if clusterID != [] then [DefaultRule(CLUSTER_KEY, clusterID)] else [])
  }

  /** The one fact about regular expressions: "^$" has no groups and matches only the empty string. */
  ghost predicate CaretDollar(re: Compiler) {
    && re(CARET_DOLLAR).Some? && re(CARET_DOLLAR).value.groups == 0
    && forall s: Bytes :: re(CARET_DOLLAR).value.find(s).Some? <==> s == []
  }

  // ---- What the rules do -------------------------------------------------------------------------------

  /** Adds the tag if the key is absent, else does nothing. */
  function SupplyTag(l: Labels, key: Bytes, value: Bytes): Outcome {
    if Lookup(l.tags, key).Some? then Passed(l)
    else match SetTagsResult(l.tags, [key, value])
      case Tagged(tags) => Passed(l.(tags := tags))
      case TagFailure(e) => Failed(l, InvalidTags(e))
  }

  lemma {:induction false} ValuesAreNotEmpty(ts: seq<Tag>, key: Bytes)
    requires AllValid(ts)
    ensures Lookup(ts, key) != Some([])
  {
    if ts != [] {
      assert ValidTag(ts[0]);
      ValuesAreNotEmpty(ts[1..], key);
    }
  }

  lemma DefaultProgram(re: Compiler, key: Bytes, value: Bytes)
    requires CaretDollar(re) && Validate(re, DefaultRule(key, value)) == None
    ensures NewRule(re, DefaultRule(key, value))
            == Program(None, [TagMatch(key, re(CARET_DOLLAR).value)], None, [key, value], false)
  {
    var r := DefaultRule(key, value);
    AcceptedIff(re, r);
    var ms := r.matches[1..];
    assert ms == [key, CARET_DOLLAR] && r.sets[1..] == [key, value];
    assert ms[2..] == [] && re(ms[0]) == re(r.matches[1]);
    assert TagMatches(re, []) == [];
    assert TagMatches(re, ms) == [TagMatch(key, re(CARET_DOLLAR).value)];
  }

  lemma DefaultRuleSupplies(re: Compiler, key: Bytes, value: Bytes, l: Labels)
    requires CaretDollar(re) && Validate(re, DefaultRule(key, value)) == None && AllValid(l.tags) && key != []
    ensures ApplyRule(NewRule(re, DefaultRule(key, value)), l) == SupplyTag(l, key, value)
  {
    var p := NewRule(re, DefaultRule(key, value));
    DefaultProgram(re, key, value);
    ValuesAreNotEmpty(l.tags, key);
    assert p.matchTag[1..] == [];
    var src := Wanted(TagSearch(l.tags, key));
    assert re(CARET_DOLLAR).value.find(src).Some? <==> Lookup(l.tags, key).None?;
    assert MatchTags(p.matchTag[1..], l.tags, None) == Matches(None);
    assert p.matchTag[0].value == re(CARET_DOLLAR).value;
    assert MatchRule(p, l) == if Lookup(l.tags, key).None? then Matches(None) else NoMatch;
    assert [key, value][1..] == [value] && [value][1..] == [];
    assert ExpandTags(None, [value], 1) == [value];
    assert ExpandTags(None, [key, value]) == [key, value];
  }

  lemma {:induction false} RulesKeepTagsValid(ps: seq<Program>, l: Labels)
    requires AllValid(l.tags)
    ensures AllValid(ApplyRules(ps, l).labels.tags)
  {
    if ps != [] {
      RuleKeepsTagsValid(ps[0], l);
      if ApplyRule(ps[0], l).Passed? {
        RulesKeepTagsValid(ps[1..], ApplyRule(ps[0], l).labels);
      }
    }
  }

  lemma RuleKeepsTagsValid(p: Program, l: Labels)
    requires AllValid(l.tags)
    ensures AllValid(ApplyRule(p, l).labels.tags)
  {
    match MatchRule(p, l)
    case NoMatch =>
    case MatchCrash =>
    case Matches(c) =>
      if p.setTag != [] && SetTagsResult(l.tags, ExpandTags(c, p.setTag)).Tagged? {
        ResultIsValid(l.tags, ExpandTags(c, p.setTag));
      }
  }

  lemma {:induction false} CompiledConcat(re: Compiler, a: seq<Rule>, b: seq<Rule>)
    requires AllAccepted(re, a + b)
    ensures AllAccepted(re, a) && AllAccepted(re, b) && Compiled(re, a + b) == Compiled(re, a) + Compiled(re, b)
  {
    assert forall i :: 0 <= i < |a| ==> a[i] == (a + b)[i];
    assert forall i :: 0 <= i < |b| ==> b[i] == (a + b)[|a| + i];
  }

  /** Supplying a tag: the key has its old value, or the supplied one; every other key keeps its value. */
  lemma SupplyMeans(l: Labels, key: Bytes, value: Bytes, other: Bytes)
    requires AllValid(l.tags) && SupplyTag(l, key, value).Passed? && other != key
    ensures var r := SupplyTag(l, key, value).labels;
            && AllValid(r.tags) && r.metric == l.metric
            && Lookup(r.tags, key) == (if Lookup(l.tags, key).Some? then Lookup(l.tags, key) else Some(value))
            && Lookup(r.tags, other) == Lookup(l.tags, other)
  {
    if Lookup(l.tags, key).None? {
      var keyval := [key, value];
      var news := Pairs(keyval);
      assert keyval[2..] == [] && news == [Tag(key, value)];
      ResultIsValid(l.tags, keyval);
      assert news[1..] == [];
      LookupConcat(news, Keep(l.tags, news), key);
      LookupConcat(news, Keep(l.tags, news), other);
      LookupKeep(l.tags, news, other);
      KeyInIs(news, other);
    }
  }

  // ---- What the view guarantees ------------------------------------------------------------------------

  function Then(o: Outcome, key: Bytes, value: Bytes): Outcome {
    if o.Passed? then SupplyTag(o.labels, key, value) else o
  }

  lemma OneMoreRule(re: Compiler, rules: seq<Rule>, key: Bytes, value: Bytes, l: Labels)
    requires CaretDollar(re) && AllAccepted(re, rules + [DefaultRule(key, value)]) && AllValid(l.tags) && key != []
    ensures AllAccepted(re, rules)
    ensures ApplyRules(Compiled(re, rules + [DefaultRule(key, value)]), l)
            == Then(ApplyRules(Compiled(re, rules), l), key, value)
  {
    var last := [DefaultRule(key, value)];
    CompiledConcat(re, rules, last);
    var ps, q := Compiled(re, rules), Compiled(re, last);
    ApplyConcat(ps, q, l);
    RulesKeepTagsValid(ps, l);
    var o := ApplyRules(ps, l);
    if o.Passed? {
      DefaultRuleSupplies(re, key, value, o.labels);
      assert q == [NewRule(re, last[0])] && q[1..] == [];
    }
  }

  /** The whole view: the custom rules as they are, then the missing tags. */
  lemma ViewMeans(re: Compiler, custom: seq<Rule>, hostID: Bytes, clusterID: Bytes, l: Labels)
    requires CaretDollar(re) && AllAccepted(re, View(custom, hostID, clusterID)) && AllValid(l.tags)
    ensures AllAccepted(re, custom)
    ensures var hosted := Then(ApplyRules(Compiled(re, custom), l), HOST, hostID);
            ApplyRules(Compiled(re, View(custom, hostID, clusterID)), l)
            == if clusterID != [] then Then(hosted, CLUSTER_KEY, clusterID) else hosted
  {
    if clusterID != [] {
      OneMoreRule(re, NewView(custom, hostID), CLUSTER_KEY, clusterID, l);
    } else {
      assert View(custom, hostID, clusterID) == NewView(custom, hostID);
    }
    OneMoreRule(re, custom, HOST, hostID, l);
  }

  ghost predicate HasTag(l: Labels, key: Bytes) {
    Lookup(l.tags, key).Some? && Lookup(l.tags, key) != Some([])
  }

  /** A key of the labels that go out: what the custom rules left, or else what the view supplies for it. */
  function Expected(c: Labels, key: Bytes, hostID: Bytes, clusterID: Bytes): Option<Bytes> {
    if Lookup(c.tags, key).Some? then Lookup(c.tags, key)
    else if key == HOST then Some(hostID)
    else if key == CLUSTER_KEY && clusterID != [] then Some(clusterID)
    else None
  }

  lemma SupplyExpected(c: Labels, hostID: Bytes, clusterID: Bytes, key: Bytes)
    requires AllValid(c.tags)
    ensures var hosted := SupplyTag(c, HOST, hostID);
            var o := if clusterID != [] then Then(hosted, CLUSTER_KEY, clusterID) else hosted;
            o.Passed? ==>
              AllValid(o.labels.tags) && o.labels.metric == c.metric
              && Lookup(o.labels.tags, key) == Expected(c, key, hostID, clusterID)
  {
    var hosted := SupplyTag(c, HOST, hostID);
    if hosted.Passed? {
      SupplyMeans(c, HOST, hostID, if key == HOST then CLUSTER_KEY else key);
      SupplyMeans(c, HOST, hostID, CLUSTER_KEY);
      if clusterID != [] && Then(hosted, CLUSTER_KEY, clusterID).Passed? {
        SupplyMeans(hosted.labels, CLUSTER_KEY, clusterID, if key == CLUSTER_KEY then HOST else key);
      }
    }
  }

  /**
   Every point that passes has a non-empty host tag, and a non-empty cluster tag if the host is in a cluster,
   whatever the custom rules do. A tag that the custom rules left in place keeps its value, and no other tag is
   added.
   */
  lemma PassedPointsAreLabelled(re: Compiler, custom: seq<Rule>, hostID: Bytes, clusterID: Bytes, l: Labels)
    requires CaretDollar(re) && AllAccepted(re, View(custom, hostID, clusterID)) && AllValid(l.tags)
    ensures AllAccepted(re, custom)
    ensures var o := ApplyRules(Compiled(re, View(custom, hostID, clusterID)), l);
            var c := ApplyRules(Compiled(re, custom), l);
            o.Passed? ==>
              && HasTag(o.labels, HOST)
              && (clusterID != [] ==> HasTag(o.labels, CLUSTER_KEY))
              && c.Passed? && o.labels.metric == c.labels.metric
              && forall key :: Lookup(o.labels.tags, key) == Expected(c.labels, key, hostID, clusterID)
  {
    ViewMeans(re, custom, hostID, clusterID, l);
    var o := ApplyRules(Compiled(re, View(custom, hostID, clusterID)), l);
    var c := ApplyRules(Compiled(re, custom), l);
    if o.Passed? {
      RulesKeepTagsValid(Compiled(re, custom), l);
      forall key ensures Lookup(o.labels.tags, key) == Expected(c.labels, key, hostID, clusterID) {
        SupplyExpected(c.labels, hostID, clusterID, key);
      }
      SupplyExpected(c.labels, hostID, clusterID, HOST);
      ValuesAreNotEmpty(o.labels.tags, HOST);
      ValuesAreNotEmpty(o.labels.tags, CLUSTER_KEY);
    }
  }

  /** The guarantee, for the filter as it runs on a point in memory. */
  method Forward(re: Compiler, custom: seq<Rule>, hostID: Bytes, clusterID: Bytes, f: Filter, p: FilterPoint)
    returns (pass: bool, err: Option<RuleFailure>, crashed: bool)
    requires CaretDollar(re) && AllAccepted(re, View(custom, hostID, clusterID))
    requires f.Valid() && Programs(f.rules) == Compiled(re, View(custom, hostID, clusterID))
    requires p.Valid() && f.Separate(p)
    modifies p, p.metric.arr, p.tags.arr, f.submatch, f.submatch.srcBuf, f.Buffers()
    ensures p.Valid()
    ensures pass ==> HasTag(p.Seen(), HOST) && (clusterID != [] ==> HasTag(p.Seen(), CLUSTER_KEY))
    ensures AllAccepted(re, custom)
    ensures var c := ApplyRules(Compiled(re, custom), old(p.Seen()));
            pass ==> c.Passed? && p.Seen().metric == c.labels.metric
                     && forall key :: Lookup(p.Seen().tags, key) == Expected(c.labels, key, hostID, clusterID)
  {
    PassedPointsAreLabelled(re, custom, hostID, clusterID, p.Seen());
    pass, err, crashed := f.Eval(p);
  }
}
