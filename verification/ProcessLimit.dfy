/** How many processes a pool may have running. */
module ProcessLimit {
  import opened Bytes
  import opened Collections
  import opened Directory
  import opened Plugins
  import PoolKill

  /** Where a process is: the i-th of an entry of byPath, or the i-th of the k-th entry that was removed. */
  datatype Place = In(path: Path, i: nat) | Out(k: nat, i: nat)

  ghost function LiveInside(s: PoolState): set<Place> {
    set p, i | p in s.byPath && 0 <= i < |All(s.byPath[p])| && All(s.byPath[p])[i].alive :: In(p, i)
  }

  ghost function LiveOutside(s: PoolState): set<Place> {
    set k, i | 0 <= k < |s.leaving| && 0 <= i < |All(s.leaving[k])| && All(s.leaving[k])[i].alive :: Out(k, i)
  }

  /** All processes of the pool that are alive. */
  ghost function Live(s: PoolState): set<Place> { LiveInside(s) + LiveOutside(s) }

  /** The removed entries whose process is still alive. */
  ghost function LeavingAlive(s: PoolState): set<nat> {
    set k: nat | 0 <= k < |s.leaving| && !PoolKill.NoneAlive(s.leaving[k])
  }

  function PathOf(q: Place): Path { if q.In? then q.path else [] }

  function RemovedOf(q: Place): nat { if q.Out? then q.k else 0 }

  lemma InsideAreFew(s: PoolState, present: set<Path>)
    requires PoolInv(s, present)
    ensures |LiveInside(s)| <= |s.byPath|
  {
    forall q, r | q in LiveInside(s) && r in LiveInside(s) && PathOf(q) == PathOf(r) ensures q == r {
      InvIsSafe(s.byPath[q.path]);
    }
    AtMostAsMany(LiveInside(s), s.byPath.Keys, PathOf);
  }

  lemma OutsideAreFew(s: PoolState, present: set<Path>)
    requires PoolInv(s, present)
    ensures |LiveOutside(s)| <= |LeavingAlive(s)|
  {
    forall q, r | q in LiveOutside(s) && r in LiveOutside(s) && RemovedOf(q) == RemovedOf(r) ensures q == r {
      InvIsSafe(s.leaving[q.k]);
    }
    AtMostAsMany(LiveOutside(s), LeavingAlive(s), RemovedOf);
  }

  /** Each entry has at most one process alive, and so has each that was removed and is not dead yet. */
  lemma LiveAreBounded(s: PoolState, present: set<Path>)
    requires PoolInv(s, present)
    ensures |Live(s)| <= |s.byPath| + |LeavingAlive(s)| <= MAX_PROC + |LeavingAlive(s)|
  {
    InsideAreFew(s, present);
    OutsideAreFew(s, present);
    assert LiveInside(s) !! LiveOutside(s);
  }

  /**
   A pool that watches a directory never has more than 128 processes alive besides those of entries that were removed.
   */
  lemma WatchedPoolIsBounded(snaps: seq<map<Path, FileInfo>>, batches: seq<seq<Event>>, steps: seq<PoolStep>)
    requires RunOfDiffs(map[], snaps, batches) && Events(steps) <= Flatten(batches)
    requires RunPool(EMPTY_POOL, steps).Some?
    ensures var s := RunPool(EMPTY_POOL, steps).value;
            |Live(s)| <= |s.byPath| + |LeavingAlive(s)| <= MAX_PROC + |LeavingAlive(s)|
  {
    WatchedPoolKeepsInv(snaps, batches, steps);
    LiveAreBounded(RunPool(EMPTY_POOL, steps).value, Replay({}, Events(steps)).value);
  }

  // ---- Runs that go beyond it ----------------------------------------------------------------------------

  /** An entry that was removed at once: its process was asked to die and has not died yet. */
  function Dying(): Entry { DoEntry(NewEntry(true), GetRemove) }

  /** n entries of one path were created and removed, one after the other, and no process died so far. */
  function Piled(n: nat): (s: PoolState)
    ensures s.byPath == map[] && |s.leaving| == n && s.stage == Looping && !s.panicked
    ensures forall k :: 0 <= k < n ==> s.leaving[k] == Dying()
  {
    PoolState(map[], seq(n, _ => Dying()), Looping, false)
  }

  lemma PileOne(p: Path, n: nat)
    ensures var s := Piled(n);
            && CanPool(s, Deliver(Create(p), true))
            && CanPool(DoPool(s, Deliver(Create(p), true)), Deliver(Remove(p), true))
            && DoPool(DoPool(s, Deliver(Create(p), true)), Deliver(Remove(p), true)) == Piled(n + 1)
  {
    var s := Piled(n);
    var none: map<Path, Entry> := map[];
    assert none.Keys == {} && |none| == 0;
    var t := DoPool(s, Deliver(Create(p), true));
    assert t.byPath == map[p := NewEntry(true)] && t.byPath - {p} == none;
    assert Piled(n + 1).leaving == s.leaving + [Dying()];
  }

  /** The run has piled up n dying processes, and the directory is empty again. */
  ghost predicate Piles(steps: seq<PoolStep>, n: nat) {
    RunPool(EMPTY_POOL, steps) == Some(Piled(n)) && Replay({}, Events(steps)) == Some({})
  }

  lemma PileMore(p: Path, steps: seq<PoolStep>, n: nat) returns (more: seq<PoolStep>)
    requires Piles(steps, n)
    ensures Piles(more, n + 1)
  {
    PileOne(p, n);
    var s := Piled(n);
    var created, t := PoolKill.Extend(steps, s, Deliver(Create(p), true));
    var removed, u := PoolKill.Extend(created, t, Deliver(Remove(p), true));
    more := removed;
    ReplaySnoc(Events(steps), Create(p), {});
    ReplaySnoc(Events(created), Remove(p), {} + {p});
    assert {} + {p} - {p} == {};
  }

  lemma ReplaySnoc(evs: seq<Event>, ev: Event, present: set<Path>)
    requires Replay({}, evs) == Some(present) && Legal(present, ev)
    ensures Replay({}, evs + [ev]) == Some(After(present, ev))
  {
    assert (evs + [ev])[..|evs|] == evs;
  }

  lemma PiledAreLive(n: nat)
    ensures |Live(Piled(n))| == n
  {
    var s := Piled(n);
    FirstPlaces(n);
    var places := set k: nat | 0 <= k < n :: Out(k, 0);
    assert All(Dying()) == [] + [Dying().process] && Dying().process.alive;
    forall q ensures q in Live(s) <==> q in places {
      if q in places {
        assert All(s.leaving[q.k])[0].alive;
      }
    }
    assert Live(s) == places;
  }

  lemma {:induction false} FirstPlaces(n: nat)
    ensures |(set k: nat | 0 <= k < n :: Out(k, 0))| == n
  {
    var places := set k: nat | 0 <= k < n :: Out(k, 0);
    if n > 0 {
      FirstPlaces(n - 1);
      assert places == (set k: nat | 0 <= k < n - 1 :: Out(k, 0)) + {Out(n - 1, 0)};
    }
  }

  /**
   There is no limit on the processes running in parallel: a program that comes and goes in the directory n times
   before its processes die has n of them alive, while the pool counts no entry at all.
   */
  lemma NoLimit(p: Path, n: nat) returns (steps: seq<PoolStep>, s: PoolState)
    ensures RunPool(EMPTY_POOL, steps) == Some(s) && Replay({}, Events(steps)) == Some({})
    ensures |Live(s)| == n && s.byPath == map[] && s.stage == Looping
  {
    steps := Pile(p, n);
    s := Piled(n);
    PiledAreLive(n);
  }

  lemma {:induction false} Pile(p: Path, n: nat) returns (steps: seq<PoolStep>)
    ensures Piles(steps, n)
  {
    if n == 0 {
      steps := [];
      assert Piled(0) == EMPTY_POOL;
    } else {
      var front := Pile(p, n - 1);
      steps := PileMore(p, front, n - 1);
    }
  }
}
