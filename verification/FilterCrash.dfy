/** When a filter takes the program down: an empty tag key among the Match expressions of a rule. */
module FilterCrash {
  import opened Bytes
  import opened TagBlocks
  import opened FilterRules
  import opened FilterValidation

  /** Every tag expression names its tag. */
  predicate KeysNamed(ms: seq<TagMatch>) {
    forall i :: 0 <= i < |ms| ==> ms[i].key != []
  }

  /** Matching comes to the i-th tag expression, and that one has no key. */
  ghost predicate EmptyKeyAt(ms: seq<TagMatch>, tags: seq<Tag>, c: Option<Capture>, i: int) {
    0 <= i < |ms| && ms[i].key == [] && MatchTags(ms[..i], tags, c).Matches?
  }

  lemma {:induction false} EmptyKeyLater(ms: seq<TagMatch>, tags: seq<Tag>, c: Option<Capture>, i: int)
    requires ms != [] && !TagSearch(tags, ms[0].key).Crash?
    requires ms[0].value.find(Wanted(TagSearch(tags, ms[0].key))).Some?
    ensures var src := Wanted(TagSearch(tags, ms[0].key));
            var c' := Captured(c, ms[0].value, src, ms[0].value.find(src).value);
            EmptyKeyAt(ms[1..], tags, c', i) <==> 0 <= i && EmptyKeyAt(ms, tags, c, i + 1)
  {
    if 0 <= i < |ms| - 1 {
      assert ms[..i + 1][1..] == ms[1..][..i] && ms[..i + 1][0] == ms[0];
    }
  }

  /** Matching crashes exactly when the point has a tag and matching comes to an expression without a key. */
  lemma {:induction false} MatchCrashIff(ms: seq<TagMatch>, tags: seq<Tag>, c: Option<Capture>)
    ensures MatchTags(ms, tags, c) == MatchCrash <==> tags != [] && exists i :: EmptyKeyAt(ms, tags, c, i)
  {
    if ms != [] {
      var tag := TagSearch(tags, ms[0].key);
      assert ms[..0] == [];
      if tag.Crash? {
        assert EmptyKeyAt(ms, tags, c, 0);
      } else {
        var found := ms[0].value.find(Wanted(tag));
        if found.Some? {
          var c' := Captured(c, ms[0].value, Wanted(tag), found.value);
          MatchCrashIff(ms[1..], tags, c');
          forall i ensures EmptyKeyAt(ms[1..], tags, c', i) <==> 0 <= i && EmptyKeyAt(ms, tags, c, i + 1) {
            EmptyKeyLater(ms, tags, c, i);
          }
          if tags != [] && exists i :: EmptyKeyAt(ms, tags, c, i) {
            var i :| EmptyKeyAt(ms, tags, c, i);
            assert i > 0;
            assert EmptyKeyAt(ms[1..], tags, c', i - 1);
          }
        } else {
          NoMatchNoCrash(ms, tags, c);
        }
      }
    }
  }

  lemma NoMatchNoCrash(ms: seq<TagMatch>, tags: seq<Tag>, c: Option<Capture>)
    requires ms != [] && !TagSearch(tags, ms[0].key).Crash?
    requires ms[0].value.find(Wanted(TagSearch(tags, ms[0].key))).None?
    ensures tags != [] ==> forall i :: !EmptyKeyAt(ms, tags, c, i)
  {
    forall i | tags != [] ensures !EmptyKeyAt(ms, tags, c, i) {
      if 0 < i < |ms| {
        assert ms[..i][0] == ms[0];
      }
    }
  }

  /** The capture that the metric expression leaves for the tags, if the metric matches. */
  function MetricMatch(p: Program, l: Labels): Option<Option<Capture>> {
    match p.matchMetric
    case None => Some(None)
    case Some(re) =>
      match re.find(l.metric)
      case None => None
      case Some(found) => Some(Captured(None, re, l.metric, found))
  }

  /** A rule crashes exactly when the metric matches, the point has a tag, and matching comes to an empty key. */
  lemma RuleCrashIff(p: Program, l: Labels)
    ensures ApplyRule(p, l).Crashed? <==>
            && l.tags != [] && MetricMatch(p, l).Some?
            && exists i :: EmptyKeyAt(p.matchTag, l.tags, MetricMatch(p, l).value, i)
  {
    var m := MetricMatch(p, l);
    if m.Some? {
      MatchCrashIff(p.matchTag, l.tags, m.value);
    }
  }

  ghost predicate CrashesAt(ps: seq<Program>, l: Labels, n: int) {
    0 <= n < |ps| && ApplyRules(ps[..n], l).Passed? && ApplyRule(ps[n], ApplyRules(ps[..n], l).labels).Crashed?
  }

  /** A filter crashes exactly when some rule does, on the labels that the rules before it let pass. */
  lemma {:induction false} FilterCrashIff(ps: seq<Program>, l: Labels)
    ensures ApplyRules(ps, l).Crashed? <==> exists n :: CrashesAt(ps, l, n)
  {
    if ps != [] {
      assert ps[..0] == [];
      var o := ApplyRule(ps[0], l);
      if o.Passed? {
        FilterCrashIff(ps[1..], o.labels);
        forall n ensures CrashesAt(ps[1..], o.labels, n) <==> 0 <= n && CrashesAt(ps, l, n + 1) {
          if 0 <= n < |ps| - 1 {
            assert ps[..n + 1][1..] == ps[1..][..n] && ps[..n + 1][0] == ps[0];
          }
        }
        if exists n :: CrashesAt(ps, l, n) {
          var n :| CrashesAt(ps, l, n);
          assert CrashesAt(ps[1..], o.labels, n - 1);
        }
      } else {
        OnlyTheFirst(ps, l);
      }
    }
  }

  lemma OnlyTheFirst(ps: seq<Program>, l: Labels)
    requires ps != [] && !ApplyRule(ps[0], l).Passed?
    ensures (exists n :: CrashesAt(ps, l, n)) <==> ApplyRule(ps[0], l).Crashed?
  {
    assert ps[..0] == [];
    if ApplyRule(ps[0], l).Crashed? {
      assert CrashesAt(ps, l, 0);
    }
    forall n | 0 < n < |ps| ensures !CrashesAt(ps, l, n) {
      assert ps[..n][0] == ps[0];
    }
  }

  /** What a user can check beforehand: a filter all of whose tag expressions have keys never crashes. */
  lemma NamedKeysNeverCrash(ps: seq<Program>, l: Labels)
    requires forall n :: 0 <= n < |ps| ==> KeysNamed(ps[n].matchTag)
    ensures !ApplyRules(ps, l).Crashed?
  {
    FilterCrashIff(ps, l);
    forall n ensures !CrashesAt(ps, l, n) {
      if 0 <= n < |ps| && ApplyRules(ps[..n], l).Passed? {
        RuleCrashIff(ps[n], ApplyRules(ps[..n], l).labels);
      }
    }
  }

  /** An accepted rule that crashes on every point with a tag and on no other: Match ["", "", "x"] with Set ["m"]. */
  lemma AcceptedRuleCrashes(re: Compiler, l: Labels)
    requires re([]).Some? && re([]).value.groups == 0 && re(LETTER_X).Some?
    requires re(LETTER_X).value.groups == 0
    ensures var r := Rule([[], [], LETTER_X], [LETTER_M], false);
            && Validate(re, r) == None && !KeysNamed(NewRule(re, r).matchTag)
            && (ApplyRule(NewRule(re, r), l).Crashed? <==> l.tags != [])
  {
    var r := Rule([[], [], LETTER_X], [LETTER_M], false);
    assert forall i :: !Captures(re, r.matches, i);
    assert Refs(LETTER_M) == [] by {
      assert Refs(LETTER_M, 1) == [];
    }
    AcceptedIff(re, r);
    var p, ms := NewRule(re, r), r.matches[1..];
    assert ms == [[], LETTER_X] && ms[2..] == [];
    assert p.matchTag == [TagMatch([], re(LETTER_X).value)] by {
      assert TagMatches(re, ms[2..]) == [];
    }
    RuleCrashIff(p, l);
    assert p.matchTag[..0] == [];
    if l.tags != [] {
      assert EmptyKeyAt(p.matchTag, l.tags, None, 0);
    }
  }
}
