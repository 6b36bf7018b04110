/** What a flattened host tree looks like: paths from the root, and ids that are all different. */
module HostPaths {
  import opened Hosts

  /** p is the way from a group down to a host: group ids, then the cluster's, then the host's own. */
  ghost predicate RootToHost(g: HostGroup, p: seq<Id>, spec: HostSpec, clusterID: Id)
    decreases g
  {
    && |p| > 0 && p[0] == g.id
    && if g.sub != [] then exists i :: 0 <= i < |g.sub| && RootToHost(g.sub[i], p[1..], spec, clusterID)
       else exists i, j :: IsHostAt(g.clusters, i, j, p[1..], spec, clusterID)
  }

  ghost predicate IsHostAt(cs: seq<Cluster>, i: int, j: int, p: seq<Id>, spec: HostSpec, clusterID: Id) {
    && 0 <= i < |cs| && 0 <= j < |cs[i].hosts|
    && spec == cs[i].hosts[j] && clusterID == cs[i].id && p == [clusterID, spec.id]
  }

  // ---- Every flattened host has its path, and every path has its host ----------------------------------

  ghost predicate IsLeaf(c: Cluster, j: int, path: seq<Id>, l: Leaf) {
    0 <= j < |c.hosts| && l == Leaf(c.hosts[j], c.id, path + [c.hosts[j].id])
  }

  lemma {:induction false} HostsHavePaths(c: Cluster, n: nat, path: seq<Id>, l: Leaf)
    requires n <= |c.hosts|
    ensures l in FlatHosts(c, n, path) <==> exists j :: j < n && IsLeaf(c, j, path, l)
  {
    if n > 0 {
      HostsHavePaths(c, n - 1, path, l);
      assert l == Leaf(c.hosts[n - 1], c.id, path + [c.hosts[n - 1].id]) <==> IsLeaf(c, n - 1, path, l);
    }
  }

  ghost predicate IsClusterLeaf(cs: seq<Cluster>, i: int, path: seq<Id>, l: Leaf) {
    0 <= i < |cs| && exists j :: IsLeaf(cs[i], j, path + [cs[i].id], l)
  }

  lemma {:induction false} ClustersHavePaths(cs: seq<Cluster>, n: nat, path: seq<Id>, l: Leaf)
    requires n <= |cs|
    ensures l in FlatClusters(cs, n, path) <==> exists i :: i < n && IsClusterLeaf(cs, i, path, l)
  {
    if n > 0 {
      var c := cs[n - 1];
      ClustersHavePaths(cs, n - 1, path, l);
      HostsHavePaths(c, |c.hosts|, path + [c.id], l);
      assert l in FlatHosts(c, |c.hosts|, path + [c.id]) <==> IsClusterLeaf(cs, n - 1, path, l);
    }
  }

  lemma LeafIsHostAt(cs: seq<Cluster>, below: seq<Id>, i: int, l: Leaf)
    ensures IsClusterLeaf(cs, i, below, l) <==>
            below <= l.tags && exists j :: IsHostAt(cs, i, j, l.tags[|below|..], l.spec, l.clusterID)
  {
    if IsClusterLeaf(cs, i, below, l) {
      var j :| IsLeaf(cs[i], j, below + [cs[i].id], l);
      assert l.tags[|below|..] == [l.clusterID, l.spec.id];
      assert IsHostAt(cs, i, j, l.tags[|below|..], l.spec, l.clusterID);
    }
    if below <= l.tags && exists j :: IsHostAt(cs, i, j, l.tags[|below|..], l.spec, l.clusterID) {
      var j :| IsHostAt(cs, i, j, l.tags[|below|..], l.spec, l.clusterID);
      assert l.tags == below + l.tags[|below|..];
      assert l.tags == (below + [cs[i].id]) + [l.spec.id];
      assert IsLeaf(cs[i], j, below + [cs[i].id], l);
    }
  }

  lemma OneDown(path: seq<Id>, id: Id, tags: seq<Id>)
    ensures path + [id] <= tags <==> path <= tags && |tags| > |path| && tags[|path|..][0] == id
    ensures path + [id] <= tags ==> tags[|path + [id]|..] == tags[|path|..][1..]
  {
    if path <= tags && |tags| > |path| && tags[|path|..][0] == id {
      assert path + [id] == tags[..|path| + 1];
    }
    if path + [id] <= tags {
      assert path == tags[..|path|];
      assert tags[|path|] == (path + [id])[|path|];
    }
  }

  /**
   The tags of every flattened host are the ids on the way from the root to it, and every host on such a way is
   flattened with those tags.
   */
  lemma {:induction false} TagsAreRootToHost(g: HostGroup, path: seq<Id>, l: Leaf)
    ensures l in Flat(g, path) <==>
            path <= l.tags && RootToHost(g, l.tags[|path|..], l.spec, l.clusterID)
    decreases g, |g.sub| + 1
  {
    var below := path + [g.id];
    OneDown(path, g.id, l.tags);
    if g.sub != [] {
      SubTags(g, |g.sub|, below, l);
      if below <= l.tags {
        var p, q := l.tags[|path|..], l.tags[|below|..];
        assert forall i :: 0 <= i < |g.sub| ==>
          (RootToHost(g.sub[i], p[1..], l.spec, l.clusterID) <==> RootToHost(g.sub[i], q, l.spec, l.clusterID));
      }
      assert Flat(g, path) == FlatSubs(g, |g.sub|, below);
    } else {
      ClusterTags(g, path, l);
    }
  }

  lemma ClusterTags(g: HostGroup, path: seq<Id>, l: Leaf)
    requires g.sub == []
    ensures l in Flat(g, path) <==>
            path <= l.tags && RootToHost(g, l.tags[|path|..], l.spec, l.clusterID)
  {
    var cs, below := g.clusters, path + [g.id];
    ClustersHavePaths(cs, |cs|, below, l);
    OneDown(path, g.id, l.tags);
    if l in Flat(g, path) {
      var i :| i < |cs| && IsClusterLeaf(cs, i, below, l);
      LeafIsHostAt(cs, below, i, l);
      var j :| IsHostAt(cs, i, j, l.tags[|below|..], l.spec, l.clusterID);
      assert IsHostAt(cs, i, j, l.tags[|path|..][1..], l.spec, l.clusterID);
    }
    if path <= l.tags && RootToHost(g, l.tags[|path|..], l.spec, l.clusterID) {
      var i, j :| IsHostAt(cs, i, j, l.tags[|path|..][1..], l.spec, l.clusterID);
      LeafIsHostAt(cs, below, i, l);
      assert IsHostAt(cs, i, j, l.tags[|below|..], l.spec, l.clusterID);
    }
  }

  lemma {:induction false} SubTags(g: HostGroup, n: nat, path: seq<Id>, l: Leaf)
    requires n <= |g.sub|
    ensures l in FlatSubs(g, n, path) <==>
            exists i :: 0 <= i < n && path <= l.tags && RootToHost(g.sub[i], l.tags[|path|..], l.spec, l.clusterID)
    decreases g, n
  {
    if n > 0 {
      SubTags(g, n - 1, path, l);
      TagsAreRootToHost(g.sub[n - 1], path, l);
    }
  }

  // ---- Distinct ids ------------------------------------------------------------------------------------

  ghost predicate AllDifferent(ids: seq<Id>) {
    forall i, j :: 0 <= i < j < |ids| ==> ids[i] != ids[j]
  }

  ghost predicate Within(ids: seq<Id>, ns: set<Id>) {
    forall i :: 0 <= i < |ids| ==> ids[i] in ns
  }

  /** Hosts whose ids are all different, each with tags that are all different; every id is in the namespace. */
  ghost predicate Registry(ls: seq<Leaf>, ns: set<Id>) {
    && (forall i :: 0 <= i < |ls| ==> ls[i].spec.id in ns && AllDifferent(ls[i].tags) && Within(ls[i].tags, ns))
    && forall i, j :: 0 <= i < j < |ls| ==> ls[i].spec.id != ls[j].spec.id
  }

  /** The same for hosts under a path: the ids below the path are in ids. */
  ghost predicate Under(ls: seq<Leaf>, path: seq<Id>, ids: set<Id>) {
    && (forall i :: 0 <= i < |ls| ==> ls[i].spec.id in ids && AllDifferent(ls[i].tags) && path <= ls[i].tags
                                      && Within(ls[i].tags[|path|..], ids))
    && forall i, j :: 0 <= i < j < |ls| ==> ls[i].spec.id != ls[j].spec.id
  }

  lemma UnderConcat(a: seq<Leaf>, b: seq<Leaf>, path: seq<Id>, x: set<Id>, y: set<Id>)
    requires Under(a, path, x) && Under(b, path, y) && x !! y
    ensures Under(a + b, path, x + y)
  {
    var ls := a + b;
    forall i | 0 <= i < |ls|
      ensures ls[i].spec.id in x + y && path <= ls[i].tags
      ensures Within(ls[i].tags[|path|..], x + y) && AllDifferent(ls[i].tags)
      ensures i < |a| ==> ls[i].spec.id in x
      ensures |a| <= i ==> ls[i].spec.id in y
    {
      assert ls[i] == if i < |a| then a[i] else b[i - |a|];
    }
    forall i, j | 0 <= i < j < |ls| ensures ls[i].spec.id != ls[j].spec.id {
      assert |a| <= i ==> ls[i] == b[i - |a|] && ls[j] == b[j - |a|];
    }
  }

  /** Hosts under path + [id] are under path, once id counts as an id below it. */
  lemma UnderShorter(ls: seq<Leaf>, path: seq<Id>, id: Id, ids: set<Id>)
    requires Under(ls, path + [id], ids)
    ensures Under(ls, path, {id} + ids)
  {
    forall i | 0 <= i < |ls|
      ensures path <= ls[i].tags && Within(ls[i].tags[|path|..], {id} + ids)
    {
      var tags := ls[i].tags;
      OneDown(path, id, tags);
      forall k | 0 <= k < |tags[|path|..]| ensures tags[|path|..][k] in {id} + ids {
        if k > 0 {
          assert tags[|path|..][k] == tags[|path + [id]|..][k - 1];
        }
      }
    }
  }

  lemma AppendDifferent(path: seq<Id>, id: Id)
    requires AllDifferent(path) && id !in path
    ensures AllDifferent(path + [id])
  {
  }

  /** What a subtree needs of the path above it. */
  ghost predicate Clear(path: seq<Id>, ns: set<Id>) {
    AllDifferent(path) && Within(path, ns)
  }

  lemma {:induction false} HostsUnder(c: Cluster, n: nat, path: seq<Id>, ns: set<Id>)
    requires n <= |c.hosts| && Clear(path, ns) && Fits(HostIds(c, n), ns)
    ensures Under(FlatHosts(c, n, path), path, ToSet(HostIds(c, n)))
  {
    if n > 0 {
      var id := c.hosts[n - 1].id;
      FitsConcat(HostIds(c, n - 1), [id], ns);
      FitsOne(id, ns + ToSet(HostIds(c, n - 1)));
      HostsUnder(c, n - 1, path, ns);
      AppendDifferent(path, id);
      var last := [Leaf(c.hosts[n - 1], c.id, path + [id])];
      assert last[0].tags[|path|..] == [id];
      UnderConcat(FlatHosts(c, n - 1, path), last, path, ToSet(HostIds(c, n - 1)), {id});
    }
  }

  lemma {:induction false} ClustersUnder(cs: seq<Cluster>, n: nat, path: seq<Id>, ns: set<Id>)
    requires n <= |cs| && Clear(path, ns) && Fits(ClusterIds(cs, n), ns)
    ensures Under(FlatClusters(cs, n, path), path, ToSet(ClusterIds(cs, n)))
  {
    if n > 0 {
      var c, before := cs[n - 1], ns + ToSet(ClusterIds(cs, n - 1));
      var ids := OneClusterIds(c, |c.hosts|);
      FitsConcat(ClusterIds(cs, n - 1), ids, ns);
      ClustersUnder(cs, n - 1, path, ns);
      FitsCluster(c, before);
      AppendDifferent(path, c.id);
      HostsUnder(c, |c.hosts|, path + [c.id], before + {c.id});
      UnderShorter(FlatHosts(c, |c.hosts|, path + [c.id]), path, c.id, ToSet(HostIds(c, |c.hosts|)));
      FitsAreNew(ids, before);
      UnderConcat(FlatClusters(cs, n - 1, path), FlatHosts(c, |c.hosts|, path + [c.id]), path,
                  ToSet(ClusterIds(cs, n - 1)), ToSet(ids));
    }
  }

  lemma FitsAreNew(ids: seq<Id>, ns: set<Id>)
    requires Fits(ids, ns)
    ensures ToSet(ids) !! ns
  {
  }

  lemma {:induction false} SubsUnder(g: HostGroup, n: nat, path: seq<Id>, ns: set<Id>)
    requires n <= |g.sub| && Clear(path, ns) && Fits(SubIds(g, n), ns)
    ensures Under(FlatSubs(g, n, path), path, ToSet(SubIds(g, n)))
    decreases g, n
  {
    if n > 0 {
      var s, before := g.sub[n - 1], ns + ToSet(SubIds(g, n - 1));
      FitsConcat(SubIds(g, n - 1), Ids(s), ns);
      SubsUnder(g, n - 1, path, ns);
      GroupUnder(s, path, before);
      FitsAreNew(Ids(s), before);
      UnderConcat(FlatSubs(g, n - 1, path), Flat(s, path), path, ToSet(SubIds(g, n - 1)), ToSet(Ids(s)));
    }
  }

  lemma {:induction false} GroupUnder(g: HostGroup, path: seq<Id>, ns: set<Id>)
    requires Clear(path, ns) && Fits(Ids(g), ns)
    ensures Under(Flat(g, path), path, ToSet(Ids(g)))
    decreases g, |g.sub| + 1
  {
    FitsHead(g, ns);
    AppendDifferent(path, g.id);
    var below := path + [g.id];
    if g.sub != [] {
      SubsUnder(g, |g.sub|, below, ns + {g.id});
      UnderShorter(FlatSubs(g, |g.sub|, below), path, g.id, ToSet(SubIds(g, |g.sub|)));
    } else {
      ClustersUnder(g.clusters, |g.clusters|, below, ns + {g.id});
      UnderShorter(FlatClusters(g.clusters, |g.clusters|, below), path, g.id,
                   ToSet(ClusterIds(g.clusters, |g.clusters|)));
    }
  }

  lemma RegistryGrows(ls: seq<Leaf>, ns: set<Id>, g: HostGroup)
    requires Registry(ls, ns) && Fits(Ids(g), ns)
    ensures Registry(ls + Flat(g, []), ns + ToSet(Ids(g)))
  {
    GroupUnder(g, [], ns);
    FitsAreNew(Ids(g), ns);
    var more := Flat(g, []);
    forall i | 0 <= i < |ls| ensures Within(ls[i].tags, ns + ToSet(Ids(g))) {
    }
    forall i | 0 <= i < |more| ensures AllDifferent(more[i].tags) && Within(more[i].tags, ns + ToSet(Ids(g))) {
      assert more[i].tags[0..] == more[i].tags;
    }
  }

  // ---- Well-formed trees -------------------------------------------------------------------------------

  /** Nothing stands where it does not belong, in the cluster or anywhere in the group. */
  ghost predicate ClusterTidy(c: Cluster) { !c.any }

  ghost predicate Tidy(g: HostGroup) {
    && !g.any && (g.sub == [] || g.clusters == [])
    && (forall i :: 0 <= i < |g.sub| ==> Tidy(g.sub[i]))
    && (forall i :: 0 <= i < |g.clusters| ==> ClusterTidy(g.clusters[i]))
  }

  lemma {:induction false} HostIdsNamed(c: Cluster, n: nat)
    requires n <= |c.hosts|
    ensures [] in HostIds(c, n) <==> exists i :: 0 <= i < n && c.hosts[i].id == []
  {
    if n > 0 {
      HostIdsNamed(c, n - 1);
    }
  }

  lemma ClusterNamed(c: Cluster)
    ensures ClusterOk(c) <==> ClusterTidy(c) && [] !in OneClusterIds(c, |c.hosts|)
  {
    HostIdsNamed(c, |c.hosts|);
  }

  ghost predicate ClustersOk(cs: seq<Cluster>, n: nat)
    requires n <= |cs|
  {
    forall i :: 0 <= i < n ==> ClusterOk(cs[i])
  }

  ghost predicate ClustersTidy(cs: seq<Cluster>, n: nat)
    requires n <= |cs|
  {
    forall i :: 0 <= i < n ==> ClusterTidy(cs[i])
  }

  lemma OneMoreCluster(cs: seq<Cluster>, n: nat)
    requires 0 < n <= |cs|
    ensures ClustersOk(cs, n) <==> ClustersOk(cs, n - 1) && ClusterOk(cs[n - 1])
    ensures ClustersTidy(cs, n) <==> ClustersTidy(cs, n - 1) && ClusterTidy(cs[n - 1])
  {
  }

  lemma {:induction false} ClustersNamed(cs: seq<Cluster>, n: nat)
    requires n <= |cs|
    ensures ClustersOk(cs, n) <==> ClustersTidy(cs, n) && [] !in ClusterIds(cs, n)
  {
    if n > 0 {
      ClustersNamed(cs, n - 1);
      OneMoreCluster(cs, n);
      ClusterNamed(cs[n - 1]);
    }
  }

  ghost predicate SubsOk(g: HostGroup, n: nat)
    requires n <= |g.sub|
  {
    forall i :: 0 <= i < n ==> GroupOk(g.sub[i])
  }

  ghost predicate SubsTidy(g: HostGroup, n: nat)
    requires n <= |g.sub|
  {
    forall i :: 0 <= i < n ==> Tidy(g.sub[i])
  }

  lemma OneMoreSub(g: HostGroup, n: nat)
    requires 0 < n <= |g.sub|
    ensures SubsOk(g, n) <==> SubsOk(g, n - 1) && GroupOk(g.sub[n - 1])
    ensures SubsTidy(g, n) <==> SubsTidy(g, n - 1) && Tidy(g.sub[n - 1])
  {
  }

  lemma {:induction false} SubsNamed(g: HostGroup, n: nat)
    requires n <= |g.sub|
    ensures SubsOk(g, n) <==> SubsTidy(g, n) && [] !in SubIds(g, n)
    decreases g, n
  {
    if n > 0 {
      SubsNamed(g, n - 1);
      OneMoreSub(g, n);
      WellFormedIff(g.sub[n - 1]);
    }
  }

  /** A group is well formed if and only if nothing is misplaced in it, and nothing in it is without an id. */
  lemma {:induction false} WellFormedIff(g: HostGroup)
    ensures GroupOk(g) <==> Tidy(g) && [] !in Ids(g)
    decreases g, |g.sub| + 1
  {
    SubsNamed(g, |g.sub|);
    ClustersNamed(g.clusters, |g.clusters|);
    assert GroupOk(g) <==> g.id != [] && !g.any && (g.sub == [] || g.clusters == []) && SubsOk(g, |g.sub|)
                           && ClustersOk(g.clusters, |g.clusters|);
    assert Tidy(g) <==> !g.any && (g.sub == [] || g.clusters == []) && SubsTidy(g, |g.sub|)
                        && ClustersTidy(g.clusters, |g.clusters|);
    if g.sub == [] {
      assert SubIds(g, 0) == [];
    } else {
      assert g.clusters == [] ==> ClusterIds(g.clusters, 0) == [];
    }
  }

  // ---- The groups of a whole configuration -------------------------------------------------------------

  /** The ids declared by a list of groups, in order. */
  function AllIds(gs: seq<HostGroup>): seq<Id> {
    if gs == [] then [] else AllIds(gs[..|gs| - 1]) + Ids(gs[|gs| - 1])
  }

  /** The hosts of a list of groups, in order. */
  function FlatAll(gs: seq<HostGroup>): seq<Leaf> {
    if gs == [] then [] else FlatAll(gs[..|gs| - 1]) + Flat(gs[|gs| - 1], [])
  }

  /** Each group is accepted by a registry that has the ids of the groups before it. */
  ghost predicate AcceptedInTurn(gs: seq<HostGroup>) {
    gs == []
    || (var front, g := gs[..|gs| - 1], gs[|gs| - 1];
        AcceptedInTurn(front) && GroupOk(g) && Fits(Ids(g), ToSet(AllIds(front))))
  }

  ghost predicate AllOk(gs: seq<HostGroup>) {
    forall i :: 0 <= i < |gs| ==> GroupOk(gs[i])
  }

  lemma AllOkSnoc(front: seq<HostGroup>, g: HostGroup)
    ensures AllOk(front + [g]) <==> AllOk(front) && GroupOk(g)
  {
    var gs := front + [g];
    assert gs[|front|] == g;
    assert forall i :: 0 <= i < |front| ==> gs[i] == front[i];
  }

  lemma FitsEmpty(ids: seq<Id>)
    ensures Fits(ids, {}) <==> AllDifferent(ids)
  {
  }

  /**
   A list of groups is accepted one after the other if and only if each is well formed and no id is declared
   twice anywhere in the configuration.
   */
  lemma {:induction false} AcceptedIff(gs: seq<HostGroup>)
    ensures AcceptedInTurn(gs) <==> AllOk(gs) && AllDifferent(AllIds(gs))
  {
    if gs != [] {
      var front, g := gs[..|gs| - 1], gs[|gs| - 1];
      AcceptedIff(front);
      FitsEmpty(AllIds(front));
      FitsEmpty(AllIds(gs));
      FitsConcat(AllIds(front), Ids(g), {});
      assert {} + ToSet(AllIds(front)) == ToSet(AllIds(front));
      assert gs == front + [g];
      AllOkSnoc(front, g);
    }
  }

  /**
   Whatever accepted groups a configuration has, from the empty registry on: host ids are pairwise distinct, the
   tags of each host are distinct, and all of them are declared ids.
   */
  lemma {:induction false} RegistryOfAll(gs: seq<HostGroup>)
    requires AcceptedInTurn(gs)
    ensures Registry(FlatAll(gs), ToSet(AllIds(gs)))
  {
    if gs != [] {
      var front, g := gs[..|gs| - 1], gs[|gs| - 1];
      RegistryOfAll(front);
      RegistryGrows(FlatAll(front), ToSet(AllIds(front)), g);
      FitsConcat(AllIds(front), Ids(g), {});
    }
  }

  lemma {:induction false} AcceptedPrefix(gs: seq<HostGroup>, n: nat)
    requires n <= |gs| && AcceptedInTurn(gs)
    ensures AcceptedInTurn(gs[..n])
    decreases |gs|
  {
    if n == |gs| {
      assert gs[..n] == gs;
    } else {
      assert gs[..|gs| - 1][..n] == gs[..n];
      AcceptedPrefix(gs[..|gs| - 1], n);
    }
  }

  /** Every group element of the file is handed to the same registry; the first one refused ends the decoding. */
  method DecodeGroups(hs: Hosts, gs: seq<HostGroup>) returns (ok: bool)
    requires hs.Valid() && hs.leaves == [] && hs.ns == {} && hs.Path() == []
    modifies hs, hs.stack
    ensures ok <==> AcceptedInTurn(gs)
    ensures ok ==> hs.Valid() && hs.leaves == FlatAll(gs) && hs.ns == ToSet(AllIds(gs))
  {
    for i := 0 to |gs|
      invariant hs.Valid() && hs.Path() == [] && (hs.stack == old(hs.stack) || fresh(hs.stack))
      invariant AcceptedInTurn(gs[..i]) && hs.leaves == FlatAll(gs[..i]) && hs.ns == ToSet(AllIds(gs[..i]))
    {
      assert gs[..i + 1][..i] == gs[..i];
      FitsConcat(AllIds(gs[..i]), Ids(gs[i]), {});
      ok := hs.AddGroup(gs[i]);
      if !ok {
        if AcceptedInTurn(gs) {
          AcceptedPrefix(gs, i + 1);
          assert false;
        }
        return;
      }
    }
    assert gs[..|gs|] == gs;
    ok := true;
  }
}
