/** Query groups: which targets cover which hosts, and when a group is accepted. */
module QueryGroups {
  import opened Bytes
  import opened Hosts
  import opened HostPaths

  /** Occurrences of an id in a list. */
  function Count(id: Id, ids: seq<Id>): nat {
    if ids == [] then 0 else Count(id, ids[..|ids| - 1]) + if ids[|ids| - 1] == id then 1 else 0
  }

  /** How often the targets name something among the tags. */
  function Hits(targets: seq<Id>, tags: seq<Id>): nat {
    if targets == [] then 0 else Hits(targets[..|targets| - 1], tags) + Count(targets[|targets| - 1], tags)
  }

  /** At most one hit on every host, and each process named at most once. */
  ghost predicate Unambiguous(targets: seq<Id>, h: Leaf) {
    && Hits(targets, h.tags) <= 1
    && forall e :: 0 <= e < |h.spec.processes| ==> Count(h.spec.processes[e], targets) <= 1
  }

  // ---- The check ---------------------------------------------------------------------------------------

  /** The seen set of one host: the host itself, and its processes by position. */
  datatype Seen = Seen(host: bool, processes: set<nat>)

  ghost predicate SeenIs(s: Seen, targets: seq<Id>, h: Leaf) {
    && Unambiguous(targets, h)
    && (s.host <==> Hits(targets, h.tags) == 1)
    && forall e :: e in s.processes <==> 0 <= e < |h.spec.processes| && Count(h.spec.processes[e], targets) == 1
  }

  lemma {:induction false} HitsGrow(targets: seq<Id>, n: nat, tags: seq<Id>)
    requires n <= |targets|
    ensures Hits(targets[..n], tags) <= Hits(targets, tags)
    decreases |targets|
  {
    if n == |targets| {
      assert targets[..n] == targets;
    } else {
      assert targets[..|targets| - 1][..n] == targets[..n];
      HitsGrow(targets[..|targets| - 1], n, tags);
    }
  }

  lemma {:induction false} CountGrows(id: Id, ids: seq<Id>, n: nat)
    requires n <= |ids|
    ensures Count(id, ids[..n]) <= Count(id, ids)
    decreases |ids|
  {
    if n == |ids| {
      assert ids[..n] == ids;
    } else {
      assert ids[..|ids| - 1][..n] == ids[..n];
      CountGrows(id, ids[..|ids| - 1], n);
    }
  }

  lemma AmbiguousStays(targets: seq<Id>, n: nat, h: Leaf)
    requires n <= |targets| && !Unambiguous(targets[..n], h)
    ensures !Unambiguous(targets, h)
  {
    HitsGrow(targets, n, h.tags);
    if Hits(targets[..n], h.tags) <= 1 {
      var e :| 0 <= e < |h.spec.processes| && Count(h.spec.processes[e], targets[..n]) > 1;
      CountGrows(h.spec.processes[e], targets, n);
    }
  }

  /** One target against the tags of one host: a second hit is an error, be it by this target or an earlier one. */
  method VisitTags(target: Id, tags: seq<Id>, seen0: bool) returns (ok: bool, seen: bool)
    ensures ok <==> (if seen0 then 1 else 0) + Count(target, tags) <= 1
    ensures ok ==> (seen <==> (if seen0 then 1 else 0) + Count(target, tags) == 1)
  {
    seen := seen0;
    for k := 0 to |tags|
      invariant (if seen then 1 else 0) == (if seen0 then 1 else 0) + Count(target, tags[..k])
    {
      assert tags[..k + 1][..k] == tags[..k];
      if tags[k] == target {
        if seen {
          CountGrows(target, tags, k + 1);
          return false, seen;
        }
        seen := true;
      }
    }
    assert tags[..|tags|] == tags;
    ok := true;
  }

  method VisitProcesses(target: Id, processes: seq<Id>, seen0: set<nat>) returns (ok: bool, seen: set<nat>)
    ensures ok <==> forall e :: 0 <= e < |processes| && processes[e] == target ==> e !in seen0
    ensures ok ==> forall e :: e in seen <==> e in seen0 || (0 <= e < |processes| && processes[e] == target)
  {
    seen := seen0;
    for e := 0 to |processes|
      invariant forall i :: 0 <= i < e && processes[i] == target ==> i !in seen0
      invariant forall i :: i in seen <==> i in seen0 || (0 <= i < e && processes[i] == target)
    {
      if processes[e] == target {
        if e in seen {
          return false, seen;
        }
        seen := seen + {e};
      }
    }
    ok := true;
  }

  method VisitHost(ghost targets: seq<Id>, n: nat, target: Id, h: Leaf, seen0: Seen) returns (ok: bool, seen: Seen)
    requires n < |targets| && target == targets[n] && SeenIs(seen0, targets[..n], h)
    ensures ok <==> Unambiguous(targets[..n + 1], h)
    ensures ok ==> SeenIs(seen, targets[..n + 1], h)
  {
    assert targets[..n + 1][..n] == targets[..n];
    var tagsOk, host := VisitTags(target, h.tags, seen0.host);
    if !tagsOk {
      return false, seen0;
    }
    var processesOk, processes := VisitProcesses(target, h.spec.processes, seen0.processes);
    return processesOk, Seen(host, processes);
  }

  /** The seen sets after n targets and, of the next target, i hosts. */
  ghost predicate Swept(seen: seq<Seen>, targets: seq<Id>, n: nat, hosts: seq<Leaf>, i: nat)
    requires n <= |targets| && (i > 0 ==> n < |targets|)
  {
    && |seen| == |hosts|
    && forall k :: 0 <= k < |hosts| ==> SeenIs(seen[k], if k < i then targets[..n + 1] else targets[..n], hosts[k])
  }

  ghost predicate Acceptable(targets: seq<Id>, ns: set<Id>, hosts: seq<Leaf>) {
    && (forall t :: 0 <= t < |targets| ==> targets[t] in ns)
    && forall k :: 0 <= k < |hosts| ==> Unambiguous(targets, hosts[k])
  }

  /**
   validate: a group needs an id and a list of targets; every target must be declared; no host may be hit twice,
   and no process named twice; and every query must be complete, with no attribute named twice.
   */
  method Validate(id: Id, targets: Option<seq<Id>>, queries: seq<Query>, ns: set<Id>, hosts: seq<Leaf>)
    returns (ok: bool)
    ensures ok <==> id != [] && targets.Some? && Acceptable(targets.value, ns, hosts)
                    && forall i :: 0 <= i < |queries| ==> QueryOk(queries[i])
  {
    if id == [] || targets.None? {
      return false;
    }
    ok := CheckTargets(targets.value, ns, hosts);
    if !ok {
      return;
    }
    for i := 0 to |queries|
      invariant forall j :: 0 <= j < i ==> QueryOk(queries[j])
    {
      ok := ValidateQuery(queries[i]);
      if !ok {
        return;
      }
    }
    ok := true;
  }

  datatype Kpi = Kpi(id: Id, name: Id)

  datatype Query = Query(id: Id, on: Id, attributes: seq<Id>, kpis: seq<Kpi>)

  ghost predicate KpiOk(kpi: Kpi) { kpi.id != [] && kpi.name != [] }

  ghost predicate QueryOk(q: Query) {
    && q.id != [] && q.on != [] && AllDifferent(q.attributes)
    && forall i :: 0 <= i < |q.kpis| ==> KpiOk(q.kpis[i])
  }

  method ValidateQuery(q: Query) returns (ok: bool)
    ensures ok <==> QueryOk(q)
  {
    if q.id == [] || q.on == [] {
      return false;
    }
    ok := NoneRepeats(q.attributes);
    if !ok {
      return;
    }
    for i := 0 to |q.kpis|
      invariant forall j :: 0 <= j < i ==> KpiOk(q.kpis[j])
    {
      if q.kpis[i].id == [] || q.kpis[i].name == [] {
        assert !KpiOk(q.kpis[i]);
        return false;
      }
    }
    ok := true;
  }

  /** The loop over the attributes with its set of seen names. */
  method NoneRepeats(attributes: seq<Id>) returns (ok: bool)
    ensures ok <==> AllDifferent(attributes)
  {
    var seen: set<Id> := {};
    for i := 0 to |attributes|
      invariant AllDifferent(attributes[..i])
      invariant seen == set j | 0 <= j < i :: attributes[j]
    {
      if attributes[i] in seen {
        var j :| 0 <= j < i && attributes[j] == attributes[i];
        return false;
      }
      seen := seen + {attributes[i]};
    }
    assert attributes[..|attributes|] == attributes;
    ok := true;
  }

  method CheckTargets(targets: seq<Id>, ns: set<Id>, hosts: seq<Leaf>) returns (ok: bool)
    ensures ok <==> Acceptable(targets, ns, hosts)
  {
    var seen := seq(|hosts|, _ => Seen(false, {}));
    for n := 0 to |targets|
      invariant Swept(seen, targets, n, hosts, 0)
      invariant forall t :: 0 <= t < n ==> targets[t] in ns
    {
      if targets[n] !in ns {
        return false;
      }
      ok, seen := CheckTarget(targets, n, hosts, seen);
      if !ok {
        return;
      }
    }
    assert targets[..|targets|] == targets;
    ok := true;
  }

  method CheckTarget(targets: seq<Id>, n: nat, hosts: seq<Leaf>, seen0: seq<Seen>) returns (ok: bool, seen: seq<Seen>)
    requires n < |targets| && Swept(seen0, targets, n, hosts, 0)
    ensures ok ==> Swept(seen, targets, n + 1, hosts, 0)
    ensures !ok ==> exists k :: 0 <= k < |hosts| && !Unambiguous(targets, hosts[k])
  {
    seen := seen0;
    for i := 0 to |hosts|
      invariant Swept(seen, targets, n, hosts, i)
    {
      var s;
      ok, s := VisitHost(targets, n, targets[n], hosts[i], seen[i]);
      if !ok {
        AmbiguousStays(targets, n + 1, hosts[i]);
        return;
      }
      seen := seen[i := s];
    }
    ok := true;
  }

  // ---- What acceptance means ---------------------------------------------------------------------------

  lemma {:induction false} CountIs(id: Id, ids: seq<Id>)
    ensures Count(id, ids) > 0 <==> id in ids
    ensures AllDifferent(ids) ==> Count(id, ids) <= 1
  {
    if ids != [] {
      CountIs(id, ids[..|ids| - 1]);
    }
  }

  /** Two targets, by position, that both cover a host. */
  ghost predicate TwoCover(targets: seq<Id>, tags: seq<Id>) {
    exists t, u :: 0 <= t < u < |targets| && targets[t] in tags && targets[u] in tags
  }

  ghost predicate Covered(targets: seq<Id>, tags: seq<Id>) {
    exists t :: 0 <= t < |targets| && targets[t] in tags
  }

  lemma CoveredSnoc(front: seq<Id>, id: Id, tags: seq<Id>)
    ensures Covered(front + [id], tags) <==> Covered(front, tags) || id in tags
  {
    var targets := front + [id];
    if Covered(targets, tags) {
      var t :| 0 <= t < |targets| && targets[t] in tags;
      assert t < |front| ==> front[t] in tags;
    }
    if Covered(front, tags) {
      var t :| 0 <= t < |front| && front[t] in tags;
      assert targets[t] in tags;
    }
    assert targets[|front|] == id;
  }

  lemma TwoCoverSnoc(front: seq<Id>, id: Id, tags: seq<Id>)
    ensures TwoCover(front + [id], tags) <==> TwoCover(front, tags) || (Covered(front, tags) && id in tags)
  {
    var targets := front + [id];
    assert targets[|front|] == id;
    if TwoCover(targets, tags) {
      var t, u :| 0 <= t < u < |targets| && targets[t] in tags && targets[u] in tags;
      assert front[t] in tags && (u < |front| ==> front[u] in tags);
    }
    if TwoCover(front, tags) {
      var t, u :| 0 <= t < u < |front| && front[t] in tags && front[u] in tags;
      assert targets[t] in tags && targets[u] in tags;
    }
    if Covered(front, tags) && id in tags {
      var t :| 0 <= t < |front| && front[t] in tags;
      assert targets[t] in tags && targets[|front|] in tags;
    }
  }

  /** When the tags of a host are all different, more than one hit means that two targets cover it. */
  lemma {:induction false} HitsAreTargets(targets: seq<Id>, tags: seq<Id>)
    requires AllDifferent(tags)
    ensures Hits(targets, tags) > 0 <==> Covered(targets, tags)
    ensures Hits(targets, tags) > 1 <==> TwoCover(targets, tags)
  {
    if targets != [] {
      var front, id := targets[..|targets| - 1], targets[|targets| - 1];
      assert targets == front + [id];
      HitsAreTargets(front, tags);
      CountIs(id, tags);
      CoveredSnoc(front, id, tags);
      TwoCoverSnoc(front, id, tags);
    }
  }

  /**
   On a registry of hosts, a list of targets is accepted exactly if all are declared, no host is covered by two
   of them, and no process is named twice.
   */
  lemma AcceptedTargetsCoverOnce(targets: seq<Id>, ns: set<Id>, hosts: seq<Leaf>, declared: set<Id>)
    requires Registry(hosts, declared)
    ensures Acceptable(targets, ns, hosts) <==>
            && (forall t :: 0 <= t < |targets| ==> targets[t] in ns)
            && (forall k :: 0 <= k < |hosts| ==> !TwoCover(targets, hosts[k].tags))
            && (forall k, e :: 0 <= k < |hosts| && 0 <= e < |hosts[k].spec.processes| ==>
                  Count(hosts[k].spec.processes[e], targets) <= 1)
  {
    forall k | 0 <= k < |hosts|
      ensures Hits(targets, hosts[k].tags) <= 1 <==> !TwoCover(targets, hosts[k].tags)
    {
      HitsAreTargets(targets, hosts[k].tags);
    }
  }
}
