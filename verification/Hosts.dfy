/** The host tree of the controller's configuration, and its flattening with a shared stack of tags. */
module Hosts {
  import opened Bytes
  import opened Collections

  type Id = Bytes

  /** Elements as they were read; any says that an element that does not belong there was found. */
  datatype HostSpec = HostSpec(id: Id, processes: seq<Id>)

  datatype Cluster = Cluster(id: Id, hosts: seq<HostSpec>, any: bool)

  datatype HostGroup = HostGroup(id: Id, sub: seq<HostGroup>, clusters: seq<Cluster>, any: bool)

  /** A registered host: its element, its cluster, and its tags from the root down. */
  datatype Leaf = Leaf(spec: HostSpec, clusterID: Id, tags: seq<Id>)

  // ---- What the flattening means -----------------------------------------------------------------------

  function FlatHosts(c: Cluster, n: nat, path: seq<Id>): seq<Leaf>
    requires n <= |c.hosts|
  {
    if n == 0 then []
    else FlatHosts(c, n - 1, path) + [Leaf(c.hosts[n - 1], c.id, path + [c.hosts[n - 1].id])]
  }

  function FlatClusters(cs: seq<Cluster>, n: nat, path: seq<Id>): seq<Leaf>
    requires n <= |cs|
  {
    if n == 0 then []
    else FlatClusters(cs, n - 1, path) + FlatHosts(cs[n - 1], |cs[n - 1].hosts|, path + [cs[n - 1].id])
  }

  function FlatSubs(g: HostGroup, n: nat, path: seq<Id>): seq<Leaf>
    requires n <= |g.sub|
    decreases g, n
  {
    if n == 0 then [] else FlatSubs(g, n - 1, path) + Flat(g.sub[n - 1], path)
  }

  /** The hosts of a group in preorder, each with the ids from the root down to its own. */
  function Flat(g: HostGroup, path: seq<Id>): seq<Leaf>
    decreases g, |g.sub| + 1
  {
    if g.sub != [] then FlatSubs(g, |g.sub|, path + [g.id]) else FlatClusters(g.clusters, |g.clusters|, path + [g.id])
  }

  function HostIds(c: Cluster, n: nat): seq<Id>
    requires n <= |c.hosts|
  {
    if n == 0 then [] else HostIds(c, n - 1) + [c.hosts[n - 1].id]
  }

  function OneClusterIds(c: Cluster, n: nat): seq<Id>
    requires n <= |c.hosts|
  {
    [c.id] + HostIds(c, n)
  }

  function ClusterIds(cs: seq<Cluster>, n: nat): seq<Id>
    requires n <= |cs|
  {
    if n == 0 then [] else ClusterIds(cs, n - 1) + OneClusterIds(cs[n - 1], |cs[n - 1].hosts|)
  }

  function SubIds(g: HostGroup, n: nat): seq<Id>
    requires n <= |g.sub|
    decreases g, n
  {
    if n == 0 then [] else SubIds(g, n - 1) + Ids(g.sub[n - 1])
  }

  /** Every id declared in a group, in preorder. */
  function Ids(g: HostGroup): seq<Id>
    decreases g, |g.sub| + 1
  {
    [g.id] + if g.sub != [] then SubIds(g, |g.sub|) else ClusterIds(g.clusters, |g.clusters|)
  }

  ghost predicate ClusterOk(c: Cluster) {
    c.id != [] && !c.any && forall i :: 0 <= i < |c.hosts| ==> c.hosts[i].id != []
  }

  ghost predicate GroupOk(g: HostGroup) {
    && g.id != [] && !g.any
    && (g.sub != [] ==> g.clusters == [])
    && (forall i :: 0 <= i < |g.sub| ==> GroupOk(g.sub[i]))
    && (forall i :: 0 <= i < |g.clusters| ==> ClusterOk(g.clusters[i]))
  }

  function ToSet(ids: seq<Id>): set<Id> { set id | id in ids }

  /** The ids are new to the namespace, and declared once each. */
  ghost predicate Fits(ids: seq<Id>, ns: set<Id>) {
    && (forall i :: 0 <= i < |ids| ==> ids[i] !in ns)
    && forall i, j :: 0 <= i < j < |ids| ==> ids[i] != ids[j]
  }

  lemma FitsConcat(a: seq<Id>, b: seq<Id>, ns: set<Id>)
    ensures Fits(a + b, ns) <==> Fits(a, ns) && Fits(b, ns + ToSet(a))
    ensures ToSet(a + b) == ToSet(a) + ToSet(b)
  {
    var ab := a + b;
    assert forall i :: 0 <= i < |a| ==> ab[i] == a[i];
    assert forall i :: 0 <= i < |b| ==> ab[|a| + i] == b[i];
    if Fits(ab, ns) {
      forall i | 0 <= i < |b| ensures b[i] !in ns + ToSet(a) {
        assert ab[|a| + i] == b[i];
      }
      forall i, j | 0 <= i < j < |b| ensures b[i] != b[j] {
        assert ab[|a| + i] != ab[|a| + j];
      }
    }
    if Fits(a, ns) && Fits(b, ns + ToSet(a)) {
      forall i, j | 0 <= i < j < |ab| ensures ab[i] != ab[j] {
        if i < |a| <= j {
          assert ab[i] in ToSet(a) && ab[j] == b[j - |a|];
        } else if |a| <= i {
          assert ab[i] == b[i - |a|] && ab[j] == b[j - |a|];
        }
      }
      forall i | 0 <= i < |ab| ensures ab[i] !in ns {
        if |a| <= i {
          assert ab[i] == b[i - |a|];
        }
      }
    }
  }

  // ---- The registry ------------------------------------------------------------------------------------

  /** The tags of a host are memory of its own. */
  datatype Host = Host(spec: HostSpec, clusterID: Id, tags: array<Id>)

  class Hosts {
    var all: seq<Host>
    var ns: set<Id>
    var stack: array<Id>   // the tags pushed so far are the first depth elements
    var depth: nat
    ghost var leaves: seq<Leaf>

    ghost predicate Valid()
      reads this, stack, set h | h in all :: h.tags
    {
      && depth <= stack.Length && |leaves| == |all|
      && forall i :: 0 <= i < |all| ==> all[i].tags != stack && leaves[i] == View(all[i])
    }

    static function View(h: Host): Leaf
      reads h.tags
    {
      Leaf(h.spec, h.clusterID, h.tags[..])
    }

    ghost function Path(): seq<Id>
      requires depth <= stack.Length
      reads this, stack
    {
      stack[..depth]
    }

    constructor ()
      ensures Valid() && fresh(stack) && all == [] && ns == {} && Path() == []
    {
      all, ns, leaves, depth := [], {}, [], 0;
      stack := new Id[4](_ => []);
    }

    method AddName(id: Id) returns (ok: bool)
      modifies this`ns
      ensures ok <==> id !in old(ns)
      ensures ns == old(ns) + {id}
    {
      if id in ns {
        return false;
      }
      ns := ns + {id};
      return true;
    }

    /** Go's append: over what a Pop left behind, or into a new array. */
    method Push(id: Id)
      requires Valid()
      modifies this`stack, this`depth, stack
      ensures Valid() && Path() == old(Path()) + [id] && (stack == old(stack) || fresh(stack))
    {
      if depth == stack.Length {
        var grown := new Id[2 * depth + 1](_ => []);
        forall i | 0 <= i < depth {
          grown[i] := stack[i];
        }
        stack := grown;
      }
      stack[depth] := id;
      depth := depth + 1;
    }

    method Pop()
      requires Valid() && depth > 0
      modifies this`depth
      ensures Valid() && Path() == old(Path())[..old(depth) - 1]
    {
      depth := depth - 1;
    }

    method Add(host: HostSpec, clusterID: Id) returns (ok: bool)
      requires Valid()
      modifies this, stack
      ensures Valid() && Path() == old(Path()) && (stack == old(stack) || fresh(stack))
      ensures ok <==> host.id != [] && host.id !in old(ns)
      ensures ok ==> leaves == old(leaves) + [Leaf(host, clusterID, old(Path()) + [host.id])]
      ensures ok ==> ns == old(ns) + {host.id}
      ensures old(leaves) <= leaves && old(ns) <= ns
    {
      if host.id == [] {
        return false;
      }
      ok := AddName(host.id);
      if !ok {
        return;
      }
      Push(host.id);
      var cp := new Id[depth](i requires 0 <= i < depth <= stack.Length reads this, stack => stack[i]);
      assert cp[..] == Path();
      all := all + [Host(host, clusterID, cp)];
      leaves := leaves + [Leaf(host, clusterID, cp[..])];
      Pop();
    }

    method AddCluster(c: Cluster) returns (ok: bool)
      requires Valid()
      modifies this, stack
      ensures Valid() && Path() == old(Path()) && (stack == old(stack) || fresh(stack))
      ensures ok <==> ClusterOk(c) && Fits(OneClusterIds(c, |c.hosts|), old(ns))
      ensures ok ==> leaves == old(leaves) + FlatHosts(c, |c.hosts|, old(Path()) + [c.id])
      ensures ok ==> ns == old(ns) + ToSet(OneClusterIds(c, |c.hosts|))
      ensures old(leaves) <= leaves && old(ns) <= ns
    {
      if c.id == [] || c.any {
        return false;
      }
      FitsCluster(c, old(ns));
      ok := AddName(c.id);
      if !ok {
        return;
      }
      Push(c.id);
      ok := AddHosts(c);
      Pop();
    }

    method AddHosts(c: Cluster) returns (ok: bool)
      requires Valid()
      modifies this, stack
      ensures Valid() && Path() == old(Path()) && (stack == old(stack) || fresh(stack))
      ensures ok <==> (forall i :: 0 <= i < |c.hosts| ==> c.hosts[i].id != []) && Fits(HostIds(c, |c.hosts|), old(ns))
      ensures ok ==> leaves == old(leaves) + FlatHosts(c, |c.hosts|, old(Path()))
      ensures ok ==> ns == old(ns) + ToSet(HostIds(c, |c.hosts|))
      ensures old(leaves) <= leaves && old(ns) <= ns
    {
      var path := Path();
      for i := 0 to |c.hosts|
        invariant Valid() && Path() == path && (stack == old(stack) || fresh(stack))
        invariant HostsDone(c, i, path, old(leaves), leaves, old(ns), ns)
      {
        HostsStep(c, i, path, old(leaves), leaves, old(ns), ns);
        ok := Add(c.hosts[i], c.id);
        if !ok {
          return;
        }
      }
      ok := true;
    }

    method AddGroup(g: HostGroup) returns (ok: bool)
      requires Valid()
      modifies this, stack
      ensures Valid() && Path() == old(Path()) && (stack == old(stack) || fresh(stack))
      ensures ok <==> GroupOk(g) && Fits(Ids(g), old(ns))
      ensures ok ==> leaves == old(leaves) + Flat(g, old(Path())) && ns == old(ns) + ToSet(Ids(g))
      ensures old(leaves) <= leaves && old(ns) <= ns
      decreases g, 2
    {
      if g.id == [] || g.any {
        return false;
      }
      FitsHead(g, old(ns));
      GroupCases(g, Path());
      ok := AddName(g.id);
      if !ok {
        return;
      }
      Push(g.id);
      ok := AddBelow(g);
      Pop();
    }

    /** The switch over what a group contains. */
    method AddBelow(g: HostGroup) returns (ok: bool)
      requires Valid()
      modifies this, stack
      ensures Valid() && Path() == old(Path()) && (stack == old(stack) || fresh(stack))
      ensures ok <==> BelowOk(g) && Fits(IdsBelow(g), old(ns))
      ensures ok ==> leaves == old(leaves) + FlatBelow(g, old(Path())) && ns == old(ns) + ToSet(IdsBelow(g))
      ensures old(leaves) <= leaves && old(ns) <= ns
      decreases g, 1
    {
      if |g.sub| > 0 {
        if |g.clusters| > 0 {
          return false;
        }
        ok := AddSubs(g);
      } else {
        ok := AddClusters(g.clusters);
      }
    }

    method AddSubs(g: HostGroup) returns (ok: bool)
      requires Valid()
      modifies this, stack
      ensures Valid() && Path() == old(Path()) && (stack == old(stack) || fresh(stack))
      ensures ok <==> (forall i :: 0 <= i < |g.sub| ==> GroupOk(g.sub[i])) && Fits(SubIds(g, |g.sub|), old(ns))
      ensures ok ==> leaves == old(leaves) + FlatSubs(g, |g.sub|, old(Path()))
      ensures ok ==> ns == old(ns) + ToSet(SubIds(g, |g.sub|))
      ensures old(leaves) <= leaves && old(ns) <= ns
      decreases g, 0
    {
      var path := Path();
      for i := 0 to |g.sub|
        invariant Valid() && Path() == path && (stack == old(stack) || fresh(stack))
        invariant SubsDone(g, i, path, old(leaves), leaves, old(ns), ns)
      {
        SubsStep(g, i, path, old(leaves), leaves, old(ns), ns);
        ok := AddGroup(g.sub[i]);
        if !ok {
          return;
        }
      }
      ok := true;
    }

    method AddClusters(cs: seq<Cluster>) returns (ok: bool)
      requires Valid()
      modifies this, stack
      ensures Valid() && Path() == old(Path()) && (stack == old(stack) || fresh(stack))
      ensures ok <==> (forall i :: 0 <= i < |cs| ==> ClusterOk(cs[i])) && Fits(ClusterIds(cs, |cs|), old(ns))
      ensures ok ==> leaves == old(leaves) + FlatClusters(cs, |cs|, old(Path()))
      ensures ok ==> ns == old(ns) + ToSet(ClusterIds(cs, |cs|))
      ensures old(leaves) <= leaves && old(ns) <= ns
    {
      var path := Path();
      for i := 0 to |cs|
        invariant Valid() && Path() == path && (stack == old(stack) || fresh(stack))
        invariant ClustersDone(cs, i, path, old(leaves), leaves, old(ns), ns)
      {
        ClustersStep(cs, i, path, old(leaves), leaves, old(ns), ns);
        ok := AddCluster(cs[i]);
        if !ok {
          return;
        }
      }
      ok := true;
    }
  }

  // ---- Declared ids, one more at a time ----------------------------------------------------------------

  lemma FitsPrefix(a: seq<Id>, b: seq<Id>, ns: set<Id>)
    requires a <= b && Fits(b, ns)
    ensures Fits(a, ns)
  {
    assert forall i :: 0 <= i < |a| ==> a[i] == b[i];
  }

  lemma FitsOne(id: Id, ns: set<Id>)
    ensures Fits([id], ns) <==> id !in ns
    ensures ToSet([id]) == {id}
  {
    if id !in ns {
      assert forall i :: 0 <= i < |[id]| ==> [id][i] !in ns;
    } else {
      assert [id][0] in ns;
    }
  }

  lemma {:induction false} HostIdsGrow(c: Cluster, m: nat, n: nat)
    requires m <= n <= |c.hosts|
    ensures HostIds(c, m) <= HostIds(c, n)
  {
    if m < n {
      HostIdsGrow(c, m, n - 1);
    }
  }

  lemma FitsCluster(c: Cluster, ns: set<Id>)
    ensures var ids := HostIds(c, |c.hosts|); var all := OneClusterIds(c, |c.hosts|);
            && (Fits(all, ns) <==> c.id !in ns && Fits(ids, ns + {c.id}))
            && ToSet(all) == {c.id} + ToSet(ids)
  {
    FitsConcat([c.id], HostIds(c, |c.hosts|), ns);
    FitsOne(c.id, ns);
  }

  /** The state of the loop over the hosts of a cluster after n of them. */
  ghost predicate HostsDone(c: Cluster, n: nat, path: seq<Id>, leaves0: seq<Leaf>, leaves: seq<Leaf>,
                            ns0: set<Id>, ns: set<Id>)
    requires n <= |c.hosts|
  {
    && leaves == leaves0 + FlatHosts(c, n, path)
    && ns == ns0 + ToSet(HostIds(c, n)) && Fits(HostIds(c, n), ns0)
    && forall j :: 0 <= j < n ==> c.hosts[j].id != []
  }

  lemma HostsStep(c: Cluster, i: nat, path: seq<Id>, leaves0: seq<Leaf>, leaves: seq<Leaf>, ns0: set<Id>, ns: set<Id>)
    requires i < |c.hosts| && HostsDone(c, i, path, leaves0, leaves, ns0, ns)
    ensures var h := c.hosts[i];
            if h.id != [] && h.id !in ns then
              HostsDone(c, i + 1, path, leaves0, leaves + [Leaf(h, c.id, path + [h.id])], ns0, ns + {h.id})
            else h.id == [] || !Fits(HostIds(c, |c.hosts|), ns0)
  {
    var id := c.hosts[i].id;
    FitsConcat(HostIds(c, i), [id], ns0);
    FitsOne(id, ns);
    HostIdsGrow(c, i + 1, |c.hosts|);
    if Fits(HostIds(c, |c.hosts|), ns0) {
      FitsPrefix(HostIds(c, i + 1), HostIds(c, |c.hosts|), ns0);
    }
    ConcatAssoc(leaves0, FlatHosts(c, i, path), [Leaf(c.hosts[i], c.id, path + [id])]);
  }

  lemma {:induction false} ClusterIdsGrow(cs: seq<Cluster>, m: nat, n: nat)
    requires m <= n <= |cs|
    ensures ClusterIds(cs, m) <= ClusterIds(cs, n)
  {
    if m < n {
      ClusterIdsGrow(cs, m, n - 1);
    }
  }

  ghost predicate ClustersDone(cs: seq<Cluster>, n: nat, path: seq<Id>, leaves0: seq<Leaf>, leaves: seq<Leaf>,
                               ns0: set<Id>, ns: set<Id>)
    requires n <= |cs|
  {
    && leaves == leaves0 + FlatClusters(cs, n, path)
    && ns == ns0 + ToSet(ClusterIds(cs, n)) && Fits(ClusterIds(cs, n), ns0)
    && forall j :: 0 <= j < n ==> ClusterOk(cs[j])
  }

  lemma ClustersStep(cs: seq<Cluster>, i: nat, path: seq<Id>, leaves0: seq<Leaf>, leaves: seq<Leaf>,
                     ns0: set<Id>, ns: set<Id>)
    requires i < |cs| && ClustersDone(cs, i, path, leaves0, leaves, ns0, ns)
    ensures var c := cs[i]; var ids := OneClusterIds(c, |c.hosts|);
            if ClusterOk(c) && Fits(ids, ns) then
              ClustersDone(cs, i + 1, path, leaves0, leaves + FlatHosts(c, |c.hosts|, path + [c.id]),
                           ns0, ns + ToSet(ids))
            else !ClusterOk(c) || !Fits(ClusterIds(cs, |cs|), ns0)
  {
    var c := cs[i];
    FitsConcat(ClusterIds(cs, i), OneClusterIds(c, |c.hosts|), ns0);
    ClusterIdsGrow(cs, i + 1, |cs|);
    if Fits(ClusterIds(cs, |cs|), ns0) {
      FitsPrefix(ClusterIds(cs, i + 1), ClusterIds(cs, |cs|), ns0);
    }
    ConcatAssoc(leaves0, FlatClusters(cs, i, path), FlatHosts(c, |c.hosts|, path + [c.id]));
  }

  lemma {:induction false} SubIdsGrow(g: HostGroup, m: nat, n: nat)
    requires m <= n <= |g.sub|
    ensures SubIds(g, m) <= SubIds(g, n)
  {
    if m < n {
      SubIdsGrow(g, m, n - 1);
    }
  }

  ghost predicate SubsDone(g: HostGroup, n: nat, path: seq<Id>, leaves0: seq<Leaf>, leaves: seq<Leaf>,
                           ns0: set<Id>, ns: set<Id>)
    requires n <= |g.sub|
  {
    && leaves == leaves0 + FlatSubs(g, n, path)
    && ns == ns0 + ToSet(SubIds(g, n)) && Fits(SubIds(g, n), ns0)
    && forall j :: 0 <= j < n ==> GroupOk(g.sub[j])
  }

  lemma SubsStep(g: HostGroup, i: nat, path: seq<Id>, leaves0: seq<Leaf>, leaves: seq<Leaf>, ns0: set<Id>, ns: set<Id>)
    requires i < |g.sub| && SubsDone(g, i, path, leaves0, leaves, ns0, ns)
    ensures var s := g.sub[i];
            if GroupOk(s) && Fits(Ids(s), ns) then
              SubsDone(g, i + 1, path, leaves0, leaves + Flat(s, path), ns0, ns + ToSet(Ids(s)))
            else !GroupOk(s) || !Fits(SubIds(g, |g.sub|), ns0)
  {
    FitsConcat(SubIds(g, i), Ids(g.sub[i]), ns0);
    SubIdsGrow(g, i + 1, |g.sub|);
    if Fits(SubIds(g, |g.sub|), ns0) {
      FitsPrefix(SubIds(g, i + 1), SubIds(g, |g.sub|), ns0);
    }
    ConcatAssoc(leaves0, FlatSubs(g, i, path), Flat(g.sub[i], path));
  }

  ghost predicate BelowOk(g: HostGroup) {
    && (g.sub != [] ==> g.clusters == [])
    && (forall i :: 0 <= i < |g.sub| ==> GroupOk(g.sub[i]))
    && (forall i :: 0 <= i < |g.clusters| ==> ClusterOk(g.clusters[i]))
  }

  function IdsBelow(g: HostGroup): seq<Id> {
    if g.sub != [] then SubIds(g, |g.sub|) else ClusterIds(g.clusters, |g.clusters|)
  }

  function FlatBelow(g: HostGroup, path: seq<Id>): seq<Leaf> {
    if g.sub != [] then FlatSubs(g, |g.sub|, path) else FlatClusters(g.clusters, |g.clusters|, path)
  }

  lemma GroupCases(g: HostGroup, path: seq<Id>)
    ensures Flat(g, path) == FlatBelow(g, path + [g.id])
    ensures GroupOk(g) <==> g.id != [] && !g.any && BelowOk(g)
  {
  }

  lemma FitsHead(g: HostGroup, ns: set<Id>)
    ensures var rest := IdsBelow(g);
            && (Fits(Ids(g), ns) <==> g.id !in ns && Fits(rest, ns + {g.id}))
            && ToSet(Ids(g)) == {g.id} + ToSet(rest)
  {
    var rest := IdsBelow(g);
    FitsConcat([g.id], rest, ns);
    FitsOne(g.id, ns);
  }
}
