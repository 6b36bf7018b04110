/** Which configured rules are accepted, and what acceptance guarantees when a rule runs. */
module FilterValidation {
  import opened Bytes
  import opened Collections
  import opened Points
  import opened TagBlocks
  import opened Decimal
  import opened FilterRules

  /** The compiler of regular expressions, or None for a syntax error. */
  type Compiler = Bytes -> Option<Regexp>

  /** A rule as configured: Match and Set alternate metric, then tag keys and values. */
  datatype Rule = Rule(matches: seq<Bytes>, sets: seq<Bytes>, block: bool)

  datatype RuleError =
    | NoOp
    | SetAndBlock
    | MatchArity
    | BadRegexp
    | SubmatchInTagName
    | TooManyCapturing
    | InvalidSetMetric
    | SetArity
    | InvalidSetTag

  function DigitsEnd(s: Bytes, i: nat): (e: nat)
    requires i <= |s|
    ensures i <= e <= |s| && AllDigits(s[i..e])
    decreases |s| - i
  {
    if i < |s| && IsDigit(s[i]) then
      var e := DigitsEnd(s, i + 1);
      assert s[i..e] == [s[i]] + s[i + 1..e];
      e
    else i
  }

  /** A reference "${N}" starts at i. */
  predicate IsRef(s: Bytes, i: nat)
    requires i <= |s|
  {
    && i + 2 < |s| && s[i] == 36 && s[i + 1] == 123
    && var e := DigitsEnd(s, i + 2); i + 2 < e < |s| && s[e] == 125
  }

  /** The numbers of the "${N}" references of a template, from left to right. */
  function Refs(s: Bytes, i: nat := 0): seq<nat>
    requires i <= |s|
    decreases |s| - i
  {
    if i == |s| then []
    else if IsRef(s, i) then
      var e := DigitsEnd(s, i + 2);
      [Dec(s[i + 2..e])] + Refs(s, e + 1)
    else Refs(s, i + 1)
  }

  /** validateSubmatch: the number must fit an int64, be at least 1, at most maxCap, and at most 9. */
  predicate SubmatchOk(n: nat, maxCap: int) {
    n <= MAX_INT64 && !(n < 1) && !(n > maxCap) && !(n > 9)
  }

  predicate RefsOk(s: Bytes, maxCap: int) {
    forall i :: 0 <= i < |Refs(s)| ==> SubmatchOk(Refs(s)[i], maxCap)
  }

  predicate IsNoOp(sets: seq<Bytes>) {
    || (|sets| == 3 && sets[0] == [] && sets[2] == [])
    || (|sets| == 2 && sets[0] == [])
    || (|sets| == 1 && sets[0] == [])
    || |sets| == 0
  }

  datatype Scan = ScanFailure(error: RuleError) | Scanned(nsubs: nat, maxCap: int)

  /** The loop over Match: counts the capturing expressions, and keeps the group count of the last one seen. */
  function ScanMatches(re: Compiler, ms: seq<Bytes>): Scan {
    if ms == [] then Scanned(0, -1)
    else
      var i := |ms| - 1;
      match ScanMatches(re, ms[..i])
      case ScanFailure(e) => ScanFailure(e)
      case Scanned(nsubs, _) =>
        match re(ms[i])
        case None => ScanFailure(BadRegexp)
        case Some(r) =>
          if r.groups > 0 && i > 0 && (i - 1) % 2 == 0 then ScanFailure(SubmatchInTagName)
          else Scanned(nsubs + (if r.groups > 0 then 1 else 0), r.groups)
  }

  function CheckSetTags(setTag: seq<Bytes>, maxCap: int): Option<RuleError>
    requires |setTag| % 2 == 0
  {
    if setTag == [] then None
    else if Refs(setTag[0]) != [] || !RefsOk(setTag[1], maxCap) then Some(InvalidSetTag)
    else CheckSetTags(setTag[2..], maxCap)
  }

  function Validate(re: Compiler, r: Rule): Option<RuleError> {
    if !r.block && IsNoOp(r.sets) then Some(NoOp)
    else if r.block && |r.sets| > 0 then Some(SetAndBlock)
    else if |r.matches| > 1 && (|r.matches| - 1) % 2 != 0 then Some(MatchArity)
    else match ScanMatches(re, r.matches)
      case ScanFailure(e) => Some(e)
      case Scanned(nsubs, maxCap) =>
        if nsubs > 1 then Some(TooManyCapturing)
        else if |r.sets| > 0 && r.sets[0] != [] && !RefsOk(r.sets[0], maxCap) then Some(InvalidSetMetric)
        else if |r.sets| > 1 && (|r.sets| - 1) % 2 != 0 then Some(SetArity)
        else if |r.sets| > 1 then CheckSetTags(r.sets[1..], maxCap)
        else None
  }

  method ValidateRule(re: Compiler, r: Rule) returns (err: Option<RuleError>)
    ensures err == Validate(re, r)
  {
    if !r.block && IsNoOp(r.sets) {
      return Some(NoOp);
    }
    if r.block && |r.sets| > 0 {
      return Some(SetAndBlock);
    }
    if |r.matches| > 1 && (|r.matches| - 1) % 2 != 0 {
      return Some(MatchArity);
    }
    var scan := ScanLoop(re, r.matches);
    if scan.ScanFailure? {
      return Some(scan.error);
    }
    if scan.nsubs > 1 {
      return Some(TooManyCapturing);
    }
    if |r.sets| > 0 && r.sets[0] != [] && !RefsOk(r.sets[0], scan.maxCap) {
      return Some(InvalidSetMetric);
    }
    if |r.sets| > 1 {
      var setTag := r.sets[1..];
      if |setTag| % 2 != 0 {
        return Some(SetArity);
      }
      err := SetTagsLoop(setTag, scan.maxCap);
      return;
    }
    return None;
  }

  method ScanLoop(re: Compiler, ms: seq<Bytes>) returns (scan: Scan)
    ensures scan == ScanMatches(re, ms)
  {
    var nsubs: nat, maxCap: int := 0, -1;
    for i := 0 to |ms|
      invariant ScanMatches(re, ms[..i]) == Scanned(nsubs, maxCap)
    {
      assert ms[..i + 1][..i] == ms[..i];
      var r := re(ms[i]);
      if r.None? {
        ScanFails(re, ms, i + 1);
        return ScanFailure(BadRegexp);
      }
      maxCap := r.value.groups;
      if maxCap > 0 {
        if i > 0 && (i - 1) % 2 == 0 {
          ScanFails(re, ms, i + 1);
          return ScanFailure(SubmatchInTagName);
        }
        nsubs := nsubs + 1;
      }
    }
    assert ms[..|ms|] == ms;
    scan := Scanned(nsubs, maxCap);
  }

  lemma {:induction false} ScanFails(re: Compiler, ms: seq<Bytes>, i: nat)
    requires i <= |ms| && ScanMatches(re, ms[..i]).ScanFailure?
    ensures ScanMatches(re, ms) == ScanMatches(re, ms[..i])
    decreases |ms|
  {
    if i == |ms| {
      assert ms[..i] == ms;
    } else {
      assert ms[..|ms| - 1][..i] == ms[..i];
      ScanFails(re, ms[..|ms| - 1], i);
    }
  }

  method SetTagsLoop(setTag: seq<Bytes>, maxCap: int) returns (err: Option<RuleError>)
    requires |setTag| % 2 == 0
    ensures err == CheckSetTags(setTag, maxCap)
  {
    var i := 0;
    assert setTag[0..] == setTag;
    while i < |setTag|
      invariant 0 <= i <= |setTag| && i % 2 == 0
      invariant CheckSetTags(setTag[i..], maxCap) == CheckSetTags(setTag, maxCap)
    {
      EvenStep(i, |setTag|);
      assert setTag[i..][2..] == setTag[i + 2..];
      if Refs(setTag[i]) != [] || !RefsOk(setTag[i + 1], maxCap) {
        return Some(InvalidSetTag);
      }
      i := i + 2;
    }
    return None;
  }

  // ---- Compilation -------------------------------------------------------------------------------------

  function TagMatches(re: Compiler, ms: seq<Bytes>): seq<TagMatch>
    requires |ms| % 2 == 0 && forall i :: 0 <= i < |ms| ==> re(ms[i]).Some?
  {
    if ms == [] then [] else [TagMatch(ms[0], re(ms[1]).value)] + TagMatches(re, ms[2..])
  }

  /** newRule: an empty metric expression matches anything, a blocking rule sets nothing. */
  function NewRule(re: Compiler, r: Rule): Program
    requires Validate(re, r) == None
  {
    ScannedAll(re, r.matches);
    Program(
      if |r.matches| > 0 && r.matches[0] != [] then re(r.matches[0]) else None,
      if |r.matches| > 1 then TagMatches(re, r.matches[1..]) else [],
      if !r.block && |r.sets| > 0 && r.sets[0] != [] then Some(r.sets[0]) else None,
      if !r.block && |r.sets| > 1 then r.sets[1..] else [],
      r.block)
  }

  /** The scan finishes exactly when everything compiles and tag names do not capture; it keeps the last count. */
  lemma {:induction false} ScannedAll(re: Compiler, ms: seq<Bytes>)
    ensures ScanMatches(re, ms).Scanned? <==> Compile(re, ms) && NamesDoNotCapture(re, ms)
    ensures ScanMatches(re, ms).Scanned? ==> ScanMatches(re, ms).maxCap == LastGroups(re, ms)
  {
    if ms != [] {
      var n, front := |ms| - 1, ms[..|ms| - 1];
      ScannedAll(re, front);
      forall i | 0 <= i < n ensures front[i] == ms[i] && (Captures(re, front, i) <==> Captures(re, ms, i)) {
      }
      assert Compile(re, ms) <==> Compile(re, front) && re(ms[n]).Some?;
      assert NamesDoNotCapture(re, ms) <==>
             NamesDoNotCapture(re, front) && (n % 2 == 1 ==> !Captures(re, ms, n));
    }
  }

  ghost predicate Compile(re: Compiler, ms: seq<Bytes>) {
    forall i :: 0 <= i < |ms| ==> re(ms[i]).Some?
  }

  /** Expressions at odd positions match tag names. */
  ghost predicate NamesDoNotCapture(re: Compiler, ms: seq<Bytes>) {
    forall i :: 0 <= i < |ms| && i % 2 == 1 ==> !Captures(re, ms, i)
  }

  /** Groups of the last Match expression; -1 if there is none. */
  function LastGroups(re: Compiler, ms: seq<Bytes>): int {
    if ms == [] || re(ms[|ms| - 1]).None? then -1 else re(ms[|ms| - 1]).value.groups
  }

  /** The i-th Match expression has groups. */
  ghost predicate Captures(re: Compiler, ms: seq<Bytes>, i: int) {
    0 <= i < |ms| && re(ms[i]).Some? && re(ms[i]).value.groups > 0
  }

  ghost predicate CapturesOnlyAt(re: Compiler, ms: seq<Bytes>, i: int) {
    Captures(re, ms, i) && forall j :: Captures(re, ms, j) ==> j == i
  }

  ghost predicate TwoCapture(re: Compiler, ms: seq<Bytes>) {
    exists i, j :: 0 <= i < j && Captures(re, ms, i) && Captures(re, ms, j)
  }

  /** The count kept by the scan is 0, 1 or more exactly when that many expressions capture. */
  lemma {:induction false} ScanCounts(re: Compiler, ms: seq<Bytes>) returns (at: int)
    requires ScanMatches(re, ms).Scanned?
    ensures ScanMatches(re, ms).nsubs == 0 ==> forall i :: !Captures(re, ms, i)
    ensures ScanMatches(re, ms).nsubs == 1 ==> CapturesOnlyAt(re, ms, at)
    ensures ScanMatches(re, ms).nsubs > 0 ==> Captures(re, ms, at)
    ensures ScanMatches(re, ms).nsubs > 1 ==> TwoCapture(re, ms)
  {
    at := -1;
    if ms != [] {
      var n, front := |ms| - 1, ms[..|ms| - 1];
      at := ScanCounts(re, front);
      forall i
        ensures Captures(re, ms, i) <==> Captures(re, front, i) || (i == n && Captures(re, ms, n))
      {
      }
      if ScanMatches(re, front).nsubs > 1 {
        TwoStill(re, front, ms);
      }
      if Captures(re, ms, n) {
        at := n;
      }
    }
  }

  lemma TwoStill(re: Compiler, front: seq<Bytes>, ms: seq<Bytes>)
    requires TwoCapture(re, front) && front <= ms
    ensures TwoCapture(re, ms)
  {
    var i, j :| 0 <= i < j && Captures(re, front, i) && Captures(re, front, j);
    assert Captures(re, ms, i) && Captures(re, ms, j);
  }

  // ---- Which rules are accepted ------------------------------------------------------------------------

  ghost predicate MatchesOk(re: Compiler, ms: seq<Bytes>) {
    Compile(re, ms) && NamesDoNotCapture(re, ms) && !TwoCapture(re, ms)
  }

  lemma ScanIff(re: Compiler, ms: seq<Bytes>)
    ensures ScanMatches(re, ms).Scanned? && ScanMatches(re, ms).nsubs <= 1 <==> MatchesOk(re, ms)
  {
    ScannedAll(re, ms);
    if ScanMatches(re, ms).Scanned? {
      var at := ScanCounts(re, ms);
    }
  }

  /** Set alternates: the metric template at 0, tag keys at odd positions, value templates at the others. */
  ghost predicate KeysHaveNoRefs(sets: seq<Bytes>) {
    forall i :: 0 <= i < |sets| && i % 2 == 1 ==> Refs(sets[i]) == []
  }

  ghost predicate TemplatesOk(sets: seq<Bytes>, maxCap: int) {
    forall i :: 0 <= i < |sets| && i % 2 == 0 ==> RefsOk(sets[i], maxCap)
  }

  lemma {:induction false} SetTagsIff(setTag: seq<Bytes>, maxCap: int)
    requires |setTag| % 2 == 0
    ensures CheckSetTags(setTag, maxCap) == None <==>
            forall i :: 0 <= i < |setTag| ==>
              if i % 2 == 0 then Refs(setTag[i]) == [] else RefsOk(setTag[i], maxCap)
  {
    if setTag != [] {
      var rest := setTag[2..];
      SetTagsIff(rest, maxCap);
      assert forall i :: 0 <= i < |rest| ==> rest[i] == setTag[i + 2];
      assert forall i :: 2 <= i < |setTag| ==> setTag[i] == rest[i - 2];
    }
  }

  ghost predicate WellShaped(re: Compiler, r: Rule) {
    && (if r.block then r.sets == [] else !IsNoOp(r.sets))
    && (|r.matches| <= 1 || |r.matches| % 2 == 1)
    && (|r.sets| <= 1 || |r.sets| % 2 == 1)
    && MatchesOk(re, r.matches)
    && KeysHaveNoRefs(r.sets)
  }

  /**
   Acceptance: the rule is well shaped, at most one expression captures, and every "${N}" of a template is
   within 1 to 9 and within the groups of the last expression of Match.
   */
  lemma AcceptedIff(re: Compiler, r: Rule)
    ensures Validate(re, r) == None <==> WellShaped(re, r) && TemplatesOk(r.sets, LastGroups(re, r.matches))
  {
    ScanIff(re, r.matches);
    ScannedAll(re, r.matches);
    if |r.sets| > 1 && |r.sets| % 2 == 1 {
      var setTag := r.sets[1..];
      SetTagsIff(setTag, LastGroups(re, r.matches));
      assert forall i :: 0 <= i < |setTag| ==> setTag[i] == r.sets[i + 1];
      assert forall i :: 1 <= i < |r.sets| ==> r.sets[i] == setTag[i - 1];
    }
    assert Refs([]) == [];
  }

  // ---- What a reference is -----------------------------------------------------------------------------

  /** From i up to e stands "${", at least one digit, and "}". */
  ghost predicate RefAt(s: Bytes, i: int, e: int, n: nat) {
    && 0 <= i && i + 2 < e < |s| && s[i] == 36 && s[i + 1] == 123 && s[e] == 125
    && AllDigits(s[i + 2..e]) && n == Dec(s[i + 2..e])
  }

  lemma DigitsEndIs(s: Bytes, i: nat, e: nat)
    requires i <= e < |s| && AllDigits(s[i..e]) && !IsDigit(s[e])
    ensures DigitsEnd(s, i) == e
    decreases e - i
  {
    if i < e {
      assert s[i..e][0] == s[i] && s[i..e][1..] == s[i + 1..e];
      DigitsEndIs(s, i + 1, e);
    }
  }

  lemma RefAtIsRef(s: Bytes, i: nat, e: nat, n: nat)
    requires RefAt(s, i, e, n)
    ensures IsRef(s, i) && DigitsEnd(s, i + 2) == e
  {
    DigitsEndIs(s, i + 2, e);
  }

  /** The scan steps over a reference as a whole, and none starts inside it. */
  lemma NoneInside(s: Bytes, i: nat, j: nat)
    requires i <= |s| && IsRef(s, i) && i < j <= DigitsEnd(s, i + 2)
    ensures s[j] != 36
  {
    var e := DigitsEnd(s, i + 2);
    if i + 2 <= j < e {
      assert IsDigit(s[i + 2..e][j - i - 2]);
    }
  }

  lemma {:induction false} RefsFrom(s: Bytes, from: nat, n: nat)
    requires from <= |s|
    ensures n in Refs(s, from) <==> exists i, e :: from <= i && RefAt(s, i, e, n)
    decreases |s| - from
  {
    if from < |s| {
      if IsRef(s, from) {
        var e := DigitsEnd(s, from + 2);
        RefsFrom(s, e + 1, n);
        assert RefAt(s, from, e, Dec(s[from + 2..e]));
        forall i, x | from <= i && RefAt(s, i, x, n) ensures if i == from then n == Dec(s[from + 2..e]) else e + 1 <= i
        {
          RefAtIsRef(s, i, x, n);
          if from < i <= e {
            NoneInside(s, from, i);
          }
        }
      } else {
        RefsFrom(s, from + 1, n);
        forall i, x | from <= i && RefAt(s, i, x, n) ensures from + 1 <= i {
          RefAtIsRef(s, i, x, n);
        }
      }
    }
  }

  /** The references that validation looks at are exactly the "${N}" in the text, wherever they stand. */
  lemma RefsIff(s: Bytes, n: nat)
    ensures n in Refs(s) <==> exists i, e :: RefAt(s, i, e, n)
  {
    RefsFrom(s, 0, n);
    assert forall i, e :: RefAt(s, i, e, n) ==> 0 <= i;
  }

  // ---- What acceptance means ---------------------------------------------------------------------------

  /** Some template of the rule refers to group n. */
  ghost predicate UsesRef(r: Rule, n: nat) {
    exists i, j :: 0 <= i < |r.sets| && i % 2 == 0 && 0 <= j < |Refs(r.sets[i])| && Refs(r.sets[i])[j] == n
  }

  ghost predicate RefFits(re: Compiler, r: Rule, n: nat) {
    1 <= n <= 9 && exists at :: Captures(re, r.matches, at) && n <= re(r.matches[at]).value.groups
  }

  /** Every reference names a group, from 1 to 9, of an expression of the rule. */
  ghost predicate RefsFit(re: Compiler, r: Rule) {
    forall n :: UsesRef(r, n) ==> RefFits(re, r, n)
  }

  lemma RefIsOk(r: Rule, n: nat, maxCap: int)
    requires TemplatesOk(r.sets, maxCap) && UsesRef(r, n)
    ensures SubmatchOk(n, maxCap)
  {
    var i, j :| 0 <= i < |r.sets| && i % 2 == 0 && 0 <= j < |Refs(r.sets[i])| && Refs(r.sets[i])[j] == n;
    assert RefsOk(r.sets[i], maxCap);
  }

  lemma FitsLast(re: Compiler, r: Rule)
    requires MatchesOk(re, r.matches) && RefsFit(re, r) && Captures(re, r.matches, |r.matches| - 1)
    ensures TemplatesOk(r.sets, LastGroups(re, r.matches))
  {
    forall i, j | 0 <= i < |r.sets| && i % 2 == 0 && 0 <= j < |Refs(r.sets[i])|
      ensures SubmatchOk(Refs(r.sets[i])[j], LastGroups(re, r.matches))
    {
      var n := Refs(r.sets[i])[j];
      assert UsesRef(r, n) && RefFits(re, r, n);
      var at :| Captures(re, r.matches, at) && n <= re(r.matches[at]).value.groups;
      assert at == |r.matches| - 1;
    }
  }

  /**
   The intended rules are the well shaped ones whose references fit the expression that captures. Of these, one
   with references is accepted only if the expression that captures is the last of Match; all others are not.
   */
  lemma AcceptedMeans(re: Compiler, r: Rule)
    ensures Validate(re, r) == None <==>
            && WellShaped(re, r) && RefsFit(re, r)
            && ((exists n :: UsesRef(r, n)) ==> Captures(re, r.matches, |r.matches| - 1))
  {
    AcceptedIff(re, r);
    if Validate(re, r) == None {
      forall n | UsesRef(r, n)
        ensures RefFits(re, r, n) && Captures(re, r.matches, |r.matches| - 1)
      {
        RefIsOk(r, n, LastGroups(re, r.matches));
        assert Captures(re, r.matches, |r.matches| - 1);
      }
    } else if WellShaped(re, r) && RefsFit(re, r) {
      if Captures(re, r.matches, |r.matches| - 1) {
        FitsLast(re, r);
      } else if forall n :: !UsesRef(r, n) {
        forall i | 0 <= i < |r.sets| && i % 2 == 0 ensures Refs(r.sets[i]) == [] {
          if Refs(r.sets[i]) != [] {
            assert UsesRef(r, Refs(r.sets[i])[0]);
          }
        }
        assert TemplatesOk(r.sets, LastGroups(re, r.matches));
      }
    }
  }

  const PAREN_A: Bytes := [40, 97, 41]
  const GROUP_ONE: Bytes := [36, 123, 49, 125]

  /** A sound rule that is refused: Match ["(a)", "host", "x"] with Set ["${1}"]. */
  lemma SoundRuleRefused(re: Compiler)
    requires re(PAREN_A).Some? && re(PAREN_A).value.groups == 1
    requires re(HOST).Some? && re(HOST).value.groups == 0
    requires re(LETTER_X).Some? && re(LETTER_X).value.groups == 0
    ensures var r := Rule([PAREN_A, HOST, LETTER_X], [GROUP_ONE], false);
            WellShaped(re, r) && RefsFit(re, r) && Validate(re, r) != None
  {
    var r := Rule([PAREN_A, HOST, LETTER_X], [GROUP_ONE], false);
    GroupOneRefs();
    assert forall i :: Captures(re, r.matches, i) ==> i == 0;
    assert Captures(re, r.matches, 0);
    assert UsesRef(r, 1) by {
      assert Refs(r.sets[0])[0] == 1;
    }
    AcceptedMeans(re, r);
  }

  lemma GroupOneRefs()
    ensures Refs(GROUP_ONE) == [1]
  {
    var s := GROUP_ONE;
    assert DigitsEnd(s, 3) == 3;
    assert DigitsEnd(s, 2) == 3;
    assert s[2..3] == [49];
    assert Refs(s, 4) == [];
  }

  // ---- References at run time --------------------------------------------------------------------------

  lemma {:induction false} TagsCapture(re: Compiler, ms: seq<Bytes>, tags: seq<Tag>, c: Option<Capture>)
    requires ms != [] && |ms| % 2 == 0 && Compile(re, ms)
    requires CapturesOnlyAt(re, ms, |ms| - 1)
    requires MatchTags(TagMatches(re, ms), tags, None) == Matches(c)
    ensures c.Some? && c.value.re == re(ms[|ms| - 1]).value && c.value.re.find(c.value.src) == Some(c.value.found)
  {
    var p := TagMatches(re, ms);
    assert p[0].value == re(ms[1]).value;
    if |ms| > 2 {
      var rest := ms[2..];
      assert !Captures(re, ms, 1);
      forall i ensures Captures(re, rest, i) <==> 0 <= i && Captures(re, ms, i + 2) {
      }
      TagsCapture(re, rest, tags, c);
    }
  }

  lemma LastCaptures(re: Compiler, r: Rule, n: nat)
    requires Validate(re, r) == None && UsesRef(r, n)
    ensures var last := |r.matches| - 1;
            && Captures(re, r.matches, last) && CapturesOnlyAt(re, r.matches, last)
            && 1 <= n <= 9 && n <= re(r.matches[last]).value.groups
  {
    AcceptedIff(re, r);
    RefIsOk(r, n, LastGroups(re, r.matches));
    assert Captures(re, r.matches, |r.matches| - 1);
  }

  lemma RecordedIsLast(re: Compiler, r: Rule, l: Labels, c: Option<Capture>)
    requires re([]).Some? ==> re([]).value.groups == 0
    requires Validate(re, r) == None && MatchRule(NewRule(re, r), l) == Matches(c)
    requires Captures(re, r.matches, |r.matches| - 1) && CapturesOnlyAt(re, r.matches, |r.matches| - 1)
    ensures c.Some? && c.value.re == re(r.matches[|r.matches| - 1]).value
    ensures c.value.re.find(c.value.src) == Some(c.value.found)
  {
    AcceptedIff(re, r);
    var last := |r.matches| - 1;
    if last > 0 {
      var ms := r.matches[1..];
      assert !Captures(re, r.matches, 0);
      forall i ensures Captures(re, ms, i) <==> 0 <= i && Captures(re, r.matches, i + 1) {
      }
      TagsCapture(re, ms, l.tags, c);
    }
  }

  /**
   Soundness of validation: once an accepted rule matches, every group its templates name exists in the one
   recorded match, so no template is expanded without the data it needs. The empty expression has no groups.
   */
  lemma AcceptedRuleHasItsGroups(re: Compiler, r: Rule, l: Labels, c: Option<Capture>, n: nat)
    requires re([]).Some? ==> re([]).value.groups == 0
    requires Validate(re, r) == None && MatchRule(NewRule(re, r), l) == Matches(c) && UsesRef(r, n)
    ensures c.Some? && 1 <= n <= 9 && n <= c.value.re.groups
    ensures c.value.re.find(c.value.src) == Some(c.value.found)
  {
    LastCaptures(re, r, n);
    RecordedIsLast(re, r, l, c);
  }
}
