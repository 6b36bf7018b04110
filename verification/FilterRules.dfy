/** What filter rules mean for a point. */
module FilterRules {
  import opened Bytes
  import opened TagBlocks

  /** A regular expression is foreign: its groups, where it matches, and the pieces that expand a template. */
  datatype Regexp = Regexp(
    groups: nat,
    find: Bytes -> Option<seq<int>>,
    expand: (Bytes, Bytes, seq<int>) -> seq<Bytes>)

  datatype TagMatch = TagMatch(key: Bytes, value: Regexp)

  /** A compiled rule. setTag alternates keys and value templates. */
  datatype Program = Program(
    matchMetric: Option<Regexp>,
    matchTag: seq<TagMatch>,
    setMetric: Option<Bytes>,
    setTag: seq<Bytes>,
    block: bool)

  /** The part of a point that rules see. */
  datatype Labels = Labels(metric: Bytes, tags: seq<Tag>)

  // ---- What a rule means -------------------------------------------------------------------------------

  /** The match that templates refer to: that of the first capturing expression of the rule. */
  datatype Capture = Capture(re: Regexp, src: Bytes, found: seq<int>)

  datatype RuleFailure = InvalidMetric | InvalidTags(error: TagError)

  datatype Outcome =
    | Passed(labels: Labels)
    | Blocked(labels: Labels)
    | Failed(labels: Labels, error: RuleFailure)
    | Crashed(labels: Labels)

  function Captured(c: Option<Capture>, re: Regexp, src: Bytes, found: seq<int>): Option<Capture> {
    if c.None? && re.groups > 0 then Some(Capture(re, src, found)) else c
  }

  /** What matching comes to; looking up the empty tag key on a point with tags takes the program down. */
  datatype Matching = NoMatch | Matches(capture: Option<Capture>) | MatchCrash

  /** The text a tag expression is matched against: the value of the tag, or the empty string. */
  function Wanted(found: Search): Bytes { if found.Hit? then found.value else [] }

  function MatchTags(ms: seq<TagMatch>, tags: seq<Tag>, c: Option<Capture>): Matching {
    if ms == [] then Matches(c)
    else
      var tag := TagSearch(tags, ms[0].key);
      if tag.Crash? then MatchCrash
      else match ms[0].value.find(Wanted(tag))
        case None => NoMatch
        case Some(found) => MatchTags(ms[1..], tags, Captured(c, ms[0].value, Wanted(tag), found))
  }

  /** A match comes with the capture that the templates of the rule refer to. */
  function MatchRule(p: Program, l: Labels): Matching {
    match p.matchMetric
    case None => MatchTags(p.matchTag, l.tags, None)
    case Some(re) =>
      match re.find(l.metric)
      case None => NoMatch
      case Some(found) => MatchTags(p.matchTag, l.tags, Captured(None, re, l.metric, found))
  }

  function Join(pieces: seq<Bytes>): Bytes {
    if pieces == [] then [] else pieces[0] + Join(pieces[1..])
  }

  function Expand(c: Option<Capture>, template: Bytes): Bytes {
    match c
    case None => template
    case Some(c) => Join(c.re.expand(template, c.src, c.found))
  }

  /** The arguments of SetTags: the keys as they are, the values expanded. */
  function ExpandTags(c: Option<Capture>, setTag: seq<Bytes>, i: nat := 0): seq<Bytes> {
    if setTag == [] then []
    else [if i % 2 == 0 then setTag[0] else Expand(c, setTag[0])] + ExpandTags(c, setTag[1..], i + 1)
  }

  function RewriteMetric(p: Program, l: Labels, c: Option<Capture>): Outcome {
    match p.setMetric
    case None => Passed(l)
    case Some(template) =>
      var metric := Expand(c, template);
      if ValidText(metric) then Passed(l.(metric := metric)) else Failed(l, InvalidMetric)
  }

  function RewriteTags(p: Program, l: Labels, c: Option<Capture>): Outcome {
    if p.setTag == [] then Passed(l)
    else
      match SetTagsResult(l.tags, ExpandTags(c, p.setTag))
      case Tagged(tags) => Passed(l.(tags := tags))
      case TagFailure(e) => Failed(l, InvalidTags(e))
  }

  /** The metric first, then the tags; templates refer to the text as it was matched. */
  function Rewrite(p: Program, l: Labels, c: Option<Capture>): Outcome {
    match RewriteMetric(p, l, c)
    case Passed(l') => RewriteTags(p, l', c)
    case other => other
  }

  function ApplyRule(p: Program, l: Labels): Outcome {
    match MatchRule(p, l)
    case NoMatch => Passed(l)
    case Matches(c) => if p.block then Blocked(l) else Rewrite(p, l, c)
    case MatchCrash => Crashed(l)
  }

  /** The meaning of a filter: its rules one after the other, each with captures of its own. */
  function ApplyRules(ps: seq<Program>, l: Labels): Outcome {
    if ps == [] then Passed(l)
    else match ApplyRule(ps[0], l)
      case Passed(l') => ApplyRules(ps[1..], l')
      case other => other
  }

  lemma {:induction false} ApplyConcat(a: seq<Program>, b: seq<Program>, l: Labels)
    ensures ApplyRules(a + b, l)
            == match ApplyRules(a, l) { case Passed(l') => ApplyRules(b, l') case other => other }
  {
    if a == [] {
      assert a + b == b;
    } else {
      assert (a + b)[1..] == a[1..] + b;
      if ApplyRule(a[0], l).Passed? {
        ApplyConcat(a[1..], b, ApplyRule(a[0], l).labels);
      }
    }
  }
}
