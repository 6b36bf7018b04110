/** The periodic snapshot: statistics per host, and per cluster over the buffers of its hosts. */
module Snapshot {
  import opened Bytes
  import opened Collections
  import opened Points
  import opened StatseStore
  import opened Percentiles

  datatype Summary = Summary(min: real, avg: real, p95: real, p99: real, max: real)

  /** One entry's statistics; a kind that was never updated has none. */
  datatype Stats = Stats(okay: int, error: int, summaries: seq<Option<Summary>>)

  function SummaryOf(fl: Rounding, values: seq<real>): Summary
    requires values != []
  {
    SortIs(values);
    var a := Percentiles.Sort(values);
    Summary(Min(a), Average(fl, a), P95(a), P99(a), Max(a))
  }

  /** A buffer that saw nothing in this cycle reports a dummy zero. */
  function BufferSummary(fl: Rounding, b: Buffer): Option<Summary> {
    if b.Nil? then None
    else if b.v == [] then Some(SummaryOf(fl, [0.0]))
    else Some(SummaryOf(fl, b.v))
  }

  method Summarize(fl: Rounding, b: Buffer) returns (s: Option<Summary>)
    ensures s == BufferSummary(fl, b)
  {
    if b.Nil? {
      return None;
    }
    var values := b.v;
    if |values| == 0 {
      values := [0.0];
    }
    SortIs(values);
    var a := Percentiles.Sort(values);
    var sum := SumLoop(fl, a);
    return Some(Summary(Min(a), fl(sum / (|a| as real)), P95(a), P99(a), Max(a)));
  }

  /** What the five numbers of a buffer say about its values, in whatever order these came. */
  lemma SummaryMeans(fl: Rounding, values: seq<real>)
    requires values != []
    ensures var s, n := SummaryOf(fl, values), |values|;
            && s.min in values && s.max in values && (forall x :: x in values ==> s.min <= x <= s.max)
            && s.p95 in values && 100 * AtMost(values, s.p95) > 95 * n && 100 * AtLeast(values, s.p95) >= 5 * n
            && s.p99 in values && 100 * AtMost(values, s.p99) > 99 * n && 100 * AtLeast(values, s.p99) >= n
            && ((forall x :: fl(x) == x) ==> s.avg == ExactTotal(values) / (n as real))
  {
    SortIs(values);
    StatisticsAreOrdered(values);
    PercentilesMean(values);
    PercentilesAreTight(values);
    if forall x :: fl(x) == x {
      ExactAverage(fl, values);
    }
  }

  /** A kind that was ever updated is reported in every cycle after, with zeros if nothing came; no other kind is. */
  lemma QuietKindReportsZero(fl: Rounding, b: Buffer)
    requires fl(0.0) == 0.0
    ensures BufferSummary(fl, b).None? <==> b.Nil?
    ensures BufferSummary(fl, Reset(b)) == if b.Nil? then None else Some(Summary(0.0, 0.0, 0.0, 0.0, 0.0))
  {
    ZeroSummary(fl);
  }

  lemma ZeroSummary(fl: Rounding)
    requires fl(0.0) == 0.0
    ensures SummaryOf(fl, [0.0]) == Summary(0.0, 0.0, 0.0, 0.0, 0.0)
  {
    var zero := [0.0];
    SortZero();
    assert zero[..0] == [] && Sum(fl, []) == 0.0;
    assert Sum(fl, zero) == fl(0.0 + 0.0) == 0.0;
    assert Average(fl, zero) == fl(0.0 / 1.0) == 0.0;
    assert 95 * |zero| / 100 == 0 && 99 * |zero| / 100 == 0;
  }

  lemma SortZero()
    ensures Sort([0.0]) == [0.0]
  {
    assert [0.0][..0] == [] && Sort([]) == [] && Insert([], 0.0) == [0.0];
  }

  ghost predicate StatsOf(fl: Rounding, s: Stats, e: Entry) {
    && s.okay == e.okay && s.error == e.error && |s.summaries| == |e.buffer|
    && forall i :: 0 <= i < |e.buffer| ==> s.summaries[i] == BufferSummary(fl, e.buffer[i])
  }

  method Calc(fl: Rounding, e: Entry) returns (s: Stats)
    ensures StatsOf(fl, s, e)
  {
    var summaries: seq<Option<Summary>> := [];
    for i := 0 to |e.buffer|
      invariant |summaries| == i
      invariant forall j :: 0 <= j < i ==> summaries[j] == BufferSummary(fl, e.buffer[j])
    {
      var summary := Summarize(fl, e.buffer[i]);
      summaries := summaries + [summary];
    }
    s := Stats(e.okay, e.error, summaries);
  }

  // ---- Sums over the hosts of a cluster ----------------------------------------------------------------

  function ClusterKey(k: Key): Key { k.(host := []) }

  /** The hosts of a cluster: those with its metric and its tags. A cluster has no host of its own. */
  ghost function HostsOf(ks: set<Key>, ck: Key): set<Key> {
    set k | k in ks && ck.host == [] && k.metric == ck.metric && k.tags == ck.tags
  }


  predicate Shaped(e: Entry) { |e.buffer| == MAX_KEYS && 0 <= e.okay && 0 <= e.error }

  predicate AllShaped(m: map<Key, Entry>) { forall k :: k in m ==> Shaped(m[k]) }

  /** What a host contributes: its counts, and the values in its buffers. */
  ghost function Share(e: Entry): (t: Tally)
    requires Shaped(e)
    ensures TallyOk(t)
  {
    Tally(e.okay, e.error, [multiset(e.buffer[0].Seq()), multiset(e.buffer[1].Seq()), multiset(e.buffer[2].Seq())])
  }

  ghost function ShareMap(m: map<Key, Entry>): (r: map<Key, Tally>)
    requires AllShaped(m)
    ensures TalliesOk(r) && r.Keys == m.Keys
  {
    map k | k in m :: Share(m[k])
  }

  /** The sum over a set of keys; which key is taken next does not matter, as TotalAdd shows. */
  ghost function Total(tallies: map<Key, Tally>, ks: set<Key>): (t: Tally)
    requires TalliesOk(tallies) && ks <= tallies.Keys
    ensures TallyOk(t)
  {
    if ks == {} then ZERO_TALLY
    else
      var k :| k in ks;
      Plus(tallies[k], Total(tallies, ks - {k}))
  }

  lemma {:induction false} TotalAdd(tallies: map<Key, Tally>, ks: set<Key>, k: Key)
    requires TalliesOk(tallies) && ks <= tallies.Keys && k in ks
    ensures Total(tallies, ks) == Plus(tallies[k], Total(tallies, ks - {k}))
    decreases ks
  {
    var p :| p in ks && Total(tallies, ks) == Plus(tallies[p], Total(tallies, ks - {p}));
    if p != k {
      TotalAdd(tallies, ks - {p}, k);
      TotalAdd(tallies, ks - {k}, p);
      assert ks - {p} - {k} == ks - {k} - {p};
      PlusSwap(tallies[p], tallies[k], Total(tallies, ks - {p} - {k}));
    }
  }

  ghost function Shares(m: map<Key, Entry>, ks: set<Key>): (t: Tally)
    requires AllShaped(m) && ks <= m.Keys
    ensures TallyOk(t)
  {
    Total(ShareMap(m), ks)
  }

  /** A cluster entry of this snapshot: the sum of its hosts; nil exactly where no host has values. */
  ghost predicate ClusterHolds(c: Entry, t: Tally) {
    EntryHolds(c, t) && forall i :: 0 <= i < MAX_KEYS ==> (c.buffer[i].Nil? <==> t.values[i] == multiset{})
  }

  ghost predicate BufferHolds(b: Buffer, seen: multiset<real>) {
    Holds(b, seen) && (b.Nil? <==> seen == multiset{})
  }

  method AppendValues(b: Buffer, values: seq<real>, ghost seen: multiset<real>) returns (r: Buffer)
    requires BufferHolds(b, seen)
    ensures BufferHolds(r, seen + multiset(values))
  {
    r := b;
    assert seen + multiset(values[..0]) == seen;
    for i := 0 to |values|
      invariant BufferHolds(r, seen + multiset(values[..i]))
    {
      SeenMore(seen, values, i);
      r := Append(r, values[i], seen + multiset(values[..i]));
    }
    assert values[..|values|] == values;
  }

  lemma SeenMore(seen: multiset<real>, values: seq<real>, i: nat)
    requires i < |values|
    ensures seen + multiset(values[..i + 1]) == seen + multiset(values[..i]) + multiset{values[i]}
    ensures seen + multiset(values[..i + 1]) != multiset{}
  {
    assert values[..i + 1] == values[..i] + [values[i]];
    assert values[i] in seen + multiset(values[..i + 1]);
  }

  /** Adds one host to its cluster. */
  method AddHost(c: Entry, host: Entry, ghost t: Tally) returns (r: Entry)
    requires ClusterHolds(c, t) && Shaped(host)
    ensures ClusterHolds(r, Plus(t, Share(host)))
  {
    r := c.(error := (c.error + host.error) % TWO_64, okay := (c.okay + host.okay) % TWO_64);
    ModAdd(t.okay, host.okay);
    ModAdd(t.error, host.error);
    var buffer := AddBuffers(c.buffer, host, t);
    r := r.(buffer := buffer);
  }

  method AddBuffers(buffer0: seq<Buffer>, host: Entry, ghost t: Tally) returns (buffer: seq<Buffer>)
    requires |buffer0| == MAX_KEYS && TallyOk(t) && Shaped(host)
    requires forall j :: 0 <= j < MAX_KEYS ==> BufferHolds(buffer0[j], t.values[j])
    ensures |buffer| == MAX_KEYS && var u := Plus(t, Share(host));
            forall j :: 0 <= j < MAX_KEYS ==> BufferHolds(buffer[j], u.values[j])
  {
    buffer := buffer0;
    ghost var u := Plus(t, Share(host));
    for i := 0 to MAX_KEYS
      invariant |buffer| == MAX_KEYS
      invariant forall j :: 0 <= j < MAX_KEYS ==> BufferHolds(buffer[j], if j < i then u.values[j] else t.values[j])
    {
      var b := AppendValues(buffer[i], host.buffer[i].Seq(), t.values[i]);
      buffer := buffer[i := b];
    }
  }

  lemma ModAdd(a: int, b: int)
    ensures (a % TWO_64 + b) % TWO_64 == (a + b) % TWO_64
  {
    var q := a / TWO_64;
    assert a == q * TWO_64 + a % TWO_64;
    ModShift(a % TWO_64 + b, q);
  }

  lemma ModShift(n: int, q: int)
    ensures (n + q * TWO_64) % TWO_64 == n % TWO_64
  {
    var d := n / TWO_64;
    assert n + q * TWO_64 == (d + q) * TWO_64 + n % TWO_64;
  }

  // ---- The snapshot ------------------------------------------------------------------------------------

  function ResetBuffers(e: Entry): Entry
    requires |e.buffer| == MAX_KEYS
  {
    e.(buffer := [Reset(e.buffer[0]), Reset(e.buffer[1]), Reset(e.buffer[2])])
  }

  /** The clusters after the hosts in done were visited. */
  ghost predicate Clusters(m: map<Key, Entry>, done: set<Key>, byCluster: map<Key, Entry>)
    requires AllShaped(m) && done <= m.Keys
  {
    && byCluster.Keys == (set k | k in done :: ClusterKey(k))
    && forall ck :: ck in byCluster ==> ClusterHolds(byCluster[ck], Shares(m, HostsOf(done, ck)))
  }

  lemma SharesGrow(m: map<Key, Entry>, done: set<Key>, k: Key, ck: Key)
    requires AllShaped(m) && done <= m.Keys && k in m && k !in done
    ensures Shares(m, HostsOf(done + {k}, ck))
            == if ck == ClusterKey(k) then Plus(Shares(m, HostsOf(done, ck)), Share(m[k]))
               else Shares(m, HostsOf(done, ck))
  {
    if ck == ClusterKey(k) {
      var ks := HostsOf(done, ck);
      assert HostsOf(done + {k}, ck) == ks + {k};
      assert (ks + {k}) - {k} == ks;
      TotalAdd(ShareMap(m), ks + {k}, k);
      PlusComm(Share(m[k]), Shares(m, ks));
    } else {
      assert HostsOf(done + {k}, ck) == HostsOf(done, ck);
    }
  }

  lemma VisitHost(m: map<Key, Entry>, done: set<Key>, k: Key, byCluster: map<Key, Entry>, c: Entry)
    requires AllShaped(m) && done <= m.Keys && k in m && k !in done && Clusters(m, done, byCluster)
    requires ClusterHolds(c, Plus(Shares(m, HostsOf(done, ClusterKey(k))), Share(m[k])))
    ensures Clusters(m, done + {k}, byCluster[ClusterKey(k) := c])
  {
    var now := byCluster[ClusterKey(k) := c];
    ClusterKeysGrow(done, k, byCluster, c);
    forall ck | ck in now ensures ClusterHolds(now[ck], Shares(m, HostsOf(done + {k}, ck))) {
      SharesGrow(m, done, k, ck);
      if ck != ClusterKey(k) {
        assert ck in byCluster && now[ck] == byCluster[ck];
      }
    }
  }

  lemma ClusterKeysGrow(done: set<Key>, k: Key, byCluster: map<Key, Entry>, c: Entry)
    requires byCluster.Keys == set j | j in done :: ClusterKey(j)
    ensures byCluster[ClusterKey(k) := c].Keys == set j | j in done + {k} :: ClusterKey(j)
  {
    var before, now := set j | j in done :: ClusterKey(j), set j | j in done + {k} :: ClusterKey(j);
    assert byCluster[ClusterKey(k) := c].Keys == before + {ClusterKey(k)};
    assert k in done + {k};
    assert before + {ClusterKey(k)} == now;
  }

  lemma PlusComm(a: Tally, b: Tally)
    requires TallyOk(a) && TallyOk(b)
    ensures Plus(a, b) == Plus(b, a)
  {
    forall i | 0 <= i < MAX_KEYS ensures a.values[i] + b.values[i] == b.values[i] + a.values[i] {
    }
  }

  lemma NoHostsYet(m: map<Key, Entry>, done: set<Key>, byCluster: map<Key, Entry>, ck: Key)
    requires AllShaped(m) && done <= m.Keys && Clusters(m, done, byCluster) && ck !in byCluster
    ensures Shares(m, HostsOf(done, ck)) == ZERO_TALLY
  {
    var seen := set k | k in done :: ClusterKey(k);
    forall k | k in done ensures ClusterKey(k) != ck {
      assert ClusterKey(k) in seen;
    }
    assert HostsOf(done, ck) == {};
  }

  lemma NewClusterHolds()
    ensures ClusterHolds(NewEntry(), ZERO_TALLY)
  {
    EmptyHolds();
  }

  /** Where the visit of the hosts stands. */
  ghost predicate Visited(fl: Rounding, m0: map<Key, Entry>, m: map<Key, Entry>, done: set<Key>,
                          hostStats: map<Key, Stats>)
    requires AllShaped(m0) && done <= m0.Keys
  {
    && m.Keys == m0.Keys && hostStats.Keys == done
    && (forall k :: k in m && k !in done ==> m[k] == m0[k])
    && (forall k :: k in done ==> m[k] == ResetBuffers(m0[k]) && StatsOf(fl, hostStats[k], m0[k]))
  }

  lemma ResetHost(fl: Rounding, m0: map<Key, Entry>, m: map<Key, Entry>, done: set<Key>,
                  hostStats: map<Key, Stats>, k: Key, s: Stats)
    requires AllShaped(m0) && done <= m0.Keys && Visited(fl, m0, m, done, hostStats)
    requires k in m0 && k !in done && StatsOf(fl, s, m0[k])
    ensures Visited(fl, m0, m[k := ResetBuffers(m0[k])], done + {k}, hostStats[k := s])
  {
    assert m[k := ResetBuffers(m0[k])].Keys == m.Keys + {k} == m.Keys;
    assert hostStats[k := s].Keys == hostStats.Keys + {k};
  }

  ghost function Emptied(tallies: map<Key, Tally>): map<Key, Tally> {
    map k | k in tallies :: tallies[k].(values := ZERO_TALLY.values)
  }

  /**
   One pass over the store, in any order. Every host reports what its entry held and its buffers end empty, its
   counts do not; every cluster reports the sums of its hosts' counts, and statistics over the union of its
   hosts' buffers.
   */
  method Do(fl: Rounding, store: Store)
    returns (hostStats: map<Key, Stats>, clusterStats: map<Key, Stats>, byCluster: map<Key, Entry>)
    requires store.Valid()
    modifies store
    ensures store.Valid() && store.tallies == Emptied(old(store.tallies))
    ensures AllShaped(old(store.m)) && Visited(fl, old(store.m), store.m, old(store.m).Keys, hostStats)
    ensures Clusters(old(store.m), old(store.m).Keys, byCluster)
    ensures clusterStats.Keys == byCluster.Keys
    ensures forall ck :: ck in byCluster ==> StatsOf(fl, clusterStats[ck], byCluster[ck])
  {
    StoreIsShaped(store.m, store.tallies);
    ghost var m0 := store.m;
    hostStats, byCluster := VisitAll(fl, store);
    EmptiedHolds(fl, m0, store.m, store.tallies, hostStats);
    store.tallies := Emptied(store.tallies);
    clusterStats := CalcAll(fl, byCluster);
  }

  lemma StoreIsShaped(m: map<Key, Entry>, tallies: map<Key, Tally>)
    requires StoreHolds(m, tallies)
    ensures AllShaped(m)
  {
    forall k | k in m ensures Shaped(m[k]) {
      assert EntryHolds(m[k], tallies[k]);
    }
  }

  lemma EmptiedHolds(fl: Rounding, m0: map<Key, Entry>, m: map<Key, Entry>, tallies: map<Key, Tally>,
                     hostStats: map<Key, Stats>)
    requires TalliesOk(tallies) && StoreHolds(m0, tallies) && AllShaped(m0) && Visited(fl, m0, m, m0.Keys, hostStats)
    ensures TalliesOk(Emptied(tallies)) && StoreHolds(m, Emptied(tallies))
  {
    forall k | k in m ensures EntryHolds(m[k], Emptied(tallies)[k]) {
      ResetHolds(m0[k], tallies[k]);
    }
  }

  lemma ResetHolds(e: Entry, t: Tally)
    requires EntryHolds(e, t)
    ensures EntryHolds(ResetBuffers(e), t.(values := ZERO_TALLY.values))
  {
  }

  method VisitAll(fl: Rounding, store: Store) returns (hostStats: map<Key, Stats>, byCluster: map<Key, Entry>)
    requires AllShaped(store.m)
    modifies store`m
    ensures Visited(fl, old(store.m), store.m, old(store.m).Keys, hostStats)
    ensures Clusters(old(store.m), old(store.m).Keys, byCluster)
  {
    ghost var m0 := store.m;
    byCluster, hostStats := map[], map[];
    var todo := store.m.Keys;
    ghost var done: set<Key> := {};
    while todo != {}
      invariant Visiting(m0.Keys, todo, done)
      invariant Visited(fl, m0, store.m, done, hostStats) && Clusters(m0, done, byCluster)
      decreases |todo|
    {
      var key :| key in todo;
      VisitOne(m0.Keys, todo, done, key);
      byCluster, hostStats := Visit(fl, store, key, m0, done, byCluster, hostStats);
      todo, done := todo - {key}, done + {key};
    }
    VisitedAll(m0.Keys, done);
  }

  /** The function passed to Store.Do. */
  method Visit(fl: Rounding, store: Store, key: Key, ghost m0: map<Key, Entry>, ghost done: set<Key>,
               byCluster0: map<Key, Entry>, hostStats0: map<Key, Stats>)
    returns (byCluster: map<Key, Entry>, hostStats: map<Key, Stats>)
    requires AllShaped(m0) && done <= m0.Keys && key in m0 && key !in done
    requires Visited(fl, m0, store.m, done, hostStats0) && Clusters(m0, done, byCluster0)
    modifies store`m
    ensures Visited(fl, m0, store.m, done + {key}, hostStats) && Clusters(m0, done + {key}, byCluster)
  {
    var host := store.m[key];
    var ck := ClusterKey(key);
    var cluster := NewEntry();
    if ck in byCluster0 {
      cluster := byCluster0[ck];
    } else {
      NoHostsYet(m0, done, byCluster0, ck);
      NewClusterHolds();
    }
    cluster := AddHost(cluster, host, Shares(m0, HostsOf(done, ck)));
    VisitHost(m0, done, key, byCluster0, cluster);
    byCluster := byCluster0[ck := cluster];
    var stats := Calc(fl, host);
    ResetHost(fl, m0, store.m, done, hostStats0, key, stats);
    hostStats := hostStats0[key := stats];
    store.m := store.m[key := ResetBuffers(host)];
  }

  method CalcAll(fl: Rounding, entries: map<Key, Entry>) returns (stats: map<Key, Stats>)
    ensures stats.Keys == entries.Keys && forall k :: k in entries ==> StatsOf(fl, stats[k], entries[k])
  {
    stats := map[];
    var todo := entries.Keys;
    while todo != {}
      invariant todo <= entries.Keys && stats.Keys == entries.Keys - todo
      invariant forall k :: k in stats ==> StatsOf(fl, stats[k], entries[k])
      decreases |todo|
    {
      var key :| key in todo;
      var s := Calc(fl, entries[key]);
      stats := stats[key := s];
      todo := todo - {key};
    }
  }

  // ---- What a cluster's statistics cover ---------------------------------------------------------------

  ghost predicate Agree(a: Tally, b: Tally, i: nat)
    requires TallyOk(a) && TallyOk(b) && i < MAX_KEYS
  {
    && a.okay % TWO_64 == b.okay % TWO_64 && a.error % TWO_64 == b.error % TWO_64
    && (|b.values[i]| <= MAX_BUFFER_LEN ==> a.values[i] == b.values[i])
  }

  lemma AgreeStep(e: Entry, t: Tally, a: Tally, b: Tally, i: nat)
    requires EntryHolds(e, t) && Shaped(e) && TallyOk(a) && TallyOk(b) && i < MAX_KEYS && Agree(a, b, i)
    ensures Agree(Plus(Share(e), a), Plus(t, b), i)
  {
    ModBoth(t.okay, a.okay, b.okay);
    ModBoth(t.error, a.error, b.error);
    assert Plus(t, b).values[i] == t.values[i] + b.values[i];
    assert Plus(Share(e), a).values[i] == multiset(e.buffer[i].Seq()) + a.values[i];
  }

  lemma {:induction false} TotalsAgree(m: map<Key, Entry>, tallies: map<Key, Tally>, ks: set<Key>, i: nat)
    requires TalliesOk(tallies) && StoreHolds(m, tallies) && AllShaped(m) && ks <= m.Keys && i < MAX_KEYS
    ensures Agree(Shares(m, ks), Total(tallies, ks), i)
    decreases ks
  {
    if ks != {} {
      var k :| k in ks;
      TotalAdd(tallies, ks, k);
      TotalAdd(ShareMap(m), ks, k);
      TotalsAgree(m, tallies, ks - {k}, i);
      AgreeStep(m[k], tallies[k], Shares(m, ks - {k}), Total(tallies, ks - {k}), i);
    }
  }

  lemma ModBoth(x: int, a: int, b: int)
    requires a % TWO_64 == b % TWO_64
    ensures (x % TWO_64 + a) % TWO_64 == (x + b) % TWO_64
  {
    ModAdd(x, a);
    ModAdd(a, x);
    ModAdd(b, x);
  }

  /**
   A cluster reports everything that was written for its hosts: its counts are the true totals modulo 2^64, and
   when the values since the last snapshot fit one buffer, its buffer is exactly their multiset union.
   */
  lemma ClusterSeesEverything(m: map<Key, Entry>, tallies: map<Key, Tally>, byCluster: map<Key, Entry>, ck: Key, i: nat)
    requires TalliesOk(tallies) && StoreHolds(m, tallies) && AllShaped(m)
    requires Clusters(m, m.Keys, byCluster) && ck in byCluster && i < MAX_KEYS
    ensures var c := byCluster[ck]; var all := Total(tallies, HostsOf(m.Keys, ck));
            && c.okay == all.okay % TWO_64 && c.error == all.error % TWO_64 && |c.buffer| == MAX_KEYS
            && (|all.values[i]| <= MAX_BUFFER_LEN ==> multiset(c.buffer[i].Seq()) == all.values[i])
  {
    TotalsAgree(m, tallies, HostsOf(m.Keys, ck), i);
    assert ClusterHolds(byCluster[ck], Shares(m, HostsOf(m.Keys, ck)));
  }
}
