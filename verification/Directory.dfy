/** The directory watcher: two snapshots differ by events that turn one into the other. */
module Directory {
  import opened Bytes
  import opened Collections

  type Path = Bytes

  /** Mode and modification time. */
  datatype FileInfo = FileInfo(mode: int, modTime: int)

  datatype Event = Create(target: Path) | Modify(target: Path) | Remove(target: Path)

  /** An event is legal if a created path is absent, and a modified or removed path is present. */
  predicate Legal(paths: set<Path>, ev: Event) {
    ev.Create? <==> ev.target !in paths
  }

  function After(paths: set<Path>, ev: Event): set<Path> {
    match ev
    case Create(p) => paths + {p}
    case Modify(_) => paths
    case Remove(p) => paths - {p}
  }

  /** Replays events on a set of paths; None as soon as one is not legal. */
  function Replay(paths: set<Path>, evs: seq<Event>): Option<set<Path>> {
    if evs == [] then Some(paths)
    else match Replay(paths, evs[..|evs| - 1])
      case None => None
      case Some(now) =>
        var ev := evs[|evs| - 1];
        if Legal(now, ev) then Some(After(now, ev)) else None
  }

  ghost predicate OncePerPath(evs: seq<Event>) {
    forall i, j :: 0 <= i < j < |evs| ==> evs[i].target != evs[j].target
  }

  /** The event that a path deserves when the snapshot last is followed by have. */
  function EventOf(last: map<Path, FileInfo>, have: map<Path, FileInfo>, p: Path): Option<Event> {
    if p in have then
      if p !in last then Some(Create(p))
      else if have[p] != last[p] then Some(Modify(p))
      else None
    else if p in last then Some(Remove(p))
    else None
  }

  /** Events for the paths in done, no others, and each once. */
  ghost predicate Told(last: map<Path, FileInfo>, have: map<Path, FileInfo>, done: set<Path>, evs: seq<Event>) {
    && OncePerPath(evs)
    && (forall i :: 0 <= i < |evs| ==> evs[i].target in done && Some(evs[i]) == EventOf(last, have, evs[i].target))
    && (forall p :: p in done && EventOf(last, have, p).Some? ==> EventOf(last, have, p).value in evs)
  }

  lemma ToldMore(last: map<Path, FileInfo>, have: map<Path, FileInfo>, done: set<Path>, evs: seq<Event>, p: Path)
    requires Told(last, have, done, evs) && p !in done
    ensures var now := match EventOf(last, have, p) { case Some(ev) => evs + [ev] case None => evs };
            Told(last, have, done + {p}, now)
  {
    if EventOf(last, have, p).Some? {
      var ev := EventOf(last, have, p).value;
      assert (evs + [ev])[|evs|] == ev;
      forall q | q in done && EventOf(last, have, q).Some? ensures EventOf(last, have, q).value in evs + [ev] {
        assert EventOf(last, have, q).value in evs;
      }
    }
  }

  lemma VisitLast(last: map<Path, FileInfo>, have: map<Path, FileInfo>, done: set<Path>, evs: seq<Event>, p: Path)
    requires Told(last, have, done, evs) && have.Keys <= done && p in last && (p in done ==> p in have)
    ensures Told(last, have, done + {p}, if p in have then evs else evs + [Remove(p)])
  {
    if p in have {
      assert done + {p} == done;
    } else {
      ToldMore(last, have, done, evs, p);
    }
  }

  class Directory {
    var last: map<Path, FileInfo>

    constructor ()
      ensures last == map[]
    {
      last := map[];
    }

    /**
     Compares a snapshot with the last one. The loops visit the paths in any order, as Go's map iteration does;
     the events are returned in the order in which they are sent.
     */
    method Diff(have: map<Path, FileInfo>) returns (evs: seq<Event>)
      modifies this
      ensures last == have
      ensures Told(old(last), have, have.Keys + old(last).Keys, evs)
    {
      evs := DiffHave(have);
      evs := DiffLast(have, evs);
      last := have;
    }

    method DiffHave(have: map<Path, FileInfo>) returns (evs: seq<Event>)
      ensures Told(last, have, have.Keys, evs)
    {
      evs := [];
      var todo := have.Keys;
      ghost var done: set<Path> := {};
      while todo != {}
        invariant Visiting(have.Keys, todo, done) && Told(last, have, done, evs)
        decreases |todo|
      {
        var path :| path in todo;
        todo := todo - {path};
        ToldMore(last, have, done, evs, path);
        done := done + {path};
        var now := have[path];
        if path !in last {
          evs := evs + [Create(path)];
          continue;
        }
        if now != last[path] {
          evs := evs + [Modify(path)];
          continue;
        }
      }
      assert done == have.Keys;
    }

    method DiffLast(have: map<Path, FileInfo>, evs0: seq<Event>) returns (evs: seq<Event>)
      requires Told(last, have, have.Keys, evs0)
      ensures Told(last, have, have.Keys + last.Keys, evs)
    {
      evs := evs0;
      var todo := last.Keys;
      ghost var done := have.Keys;
      while todo != {}
        invariant Remaining(have.Keys, last.Keys, todo, done)
        invariant Told(last, have, done, evs)
        decreases |todo|
      {
        var path :| path in todo;
        RemainingStep(have.Keys, last.Keys, todo, done, path);
        todo := todo - {path};
        VisitLast(last, have, done, evs, path);
        done := done + {path};
        if path !in have {
          evs := evs + [Remove(path)];
        }
      }
      NoneRemain(have.Keys, last.Keys, done);
    }
  }

  /** The second loop: done are the new paths and the old ones visited so far. */
  ghost predicate Remaining(have: set<Path>, last: set<Path>, todo: set<Path>, done: set<Path>) {
    && todo <= last && have <= done && last <= done + todo && done <= have + last
    && forall p :: p in todo && p in done ==> p in have
  }

  lemma RemainingStep(have: set<Path>, last: set<Path>, todo: set<Path>, done: set<Path>, p: Path)
    requires Remaining(have, last, todo, done) && p in todo
    ensures Remaining(have, last, todo - {p}, done + {p}) && |todo - {p}| < |todo|
    ensures p in last && (p in done ==> p in have)
  {
  }

  lemma NoneRemain(have: set<Path>, last: set<Path>, done: set<Path>)
    requires Remaining(have, last, {}, done)
    ensures done == have + last
  {
  }

  // ---- What the events of a diff mean ------------------------------------------------------------------

  /** The paths known once the events so far were replayed. */
  ghost function Known(last: map<Path, FileInfo>, evs: seq<Event>): set<Path> {
    (set p | p in last && Remove(p) !in evs) + (set ev | ev in evs && ev.Create? :: ev.target)
  }

  lemma {:induction false} ToldReplays(last: map<Path, FileInfo>, have: map<Path, FileInfo>, evs: seq<Event>)
    requires OncePerPath(evs)
    requires forall i :: 0 <= i < |evs| ==> Some(evs[i]) == EventOf(last, have, evs[i].target)
    ensures Replay(last.Keys, evs) == Some(Known(last, evs))
  {
    if evs == [] {
      assert Known(last, evs) == last.Keys;
    } else {
      var n, front := |evs| - 1, evs[..|evs| - 1];
      ToldReplays(last, have, front);
      var ev := evs[n];
      assert evs == front + [ev];
      forall i | 0 <= i < n ensures front[i].target != ev.target {
        assert evs[i].target != evs[n].target;
      }
      KnownMore(last, have, front, ev);
    }
  }

  lemma KnownMore(last: map<Path, FileInfo>, have: map<Path, FileInfo>, front: seq<Event>, ev: Event)
    requires forall i :: 0 <= i < |front| ==> front[i].target != ev.target
    requires Some(ev) == EventOf(last, have, ev.target)
    ensures Legal(Known(last, front), ev) && Known(last, front + [ev]) == After(Known(last, front), ev)
  {
    var p, before, now := ev.target, Known(last, front), Known(last, front + [ev]);
    assert forall e :: e in front + [ev] <==> e in front || e == ev;
    assert Remove(p) !in front && Create(p) !in front;
    assert p in before <==> p in last;
    forall q ensures q in now <==> q in After(before, ev) {
      assert q != p ==> (Create(q) in front + [ev] <==> Create(q) in front);
    }
  }

  /**
   The events of one diff, in whatever order they were found, are legal one after the other, turn the old set
   of paths into the new one, and mention each path at most once: exactly the paths that changed.
   */
  lemma DiffReplays(last: map<Path, FileInfo>, have: map<Path, FileInfo>, evs: seq<Event>)
    requires Told(last, have, have.Keys + last.Keys, evs)
    ensures Replay(last.Keys, evs) == Some(have.Keys)
    ensures OncePerPath(evs)
    ensures forall p :: Mentions(evs, p) <==> EventOf(last, have, p).Some?
  {
    ToldReplays(last, have, evs);
    forall p ensures p in Known(last, evs) <==> p in have {
      KnownAtEnd(last, have, evs, p);
    }
    assert Known(last, evs) == have.Keys;
    forall p ensures Mentions(evs, p) <==> EventOf(last, have, p).Some? {
      MentionedIff(last, have, evs, p);
    }
  }

  ghost predicate Mentions(evs: seq<Event>, p: Path) {
    exists i :: 0 <= i < |evs| && evs[i].target == p
  }

  lemma MentionedIff(last: map<Path, FileInfo>, have: map<Path, FileInfo>, evs: seq<Event>, p: Path)
    requires Told(last, have, have.Keys + last.Keys, evs)
    ensures Mentions(evs, p) <==> EventOf(last, have, p).Some?
    ensures forall ev :: ev in evs && ev.target == p ==> EventOf(last, have, p) == Some(ev)
    ensures EventOf(last, have, p).Some? ==> EventOf(last, have, p).value in evs
  {
    if EventOf(last, have, p).Some? {
      var ev := EventOf(last, have, p).value;
      assert ev in evs;
      var i :| 0 <= i < |evs| && evs[i] == ev;
      assert evs[i].target == p;
    }
  }

  lemma KnownAtEnd(last: map<Path, FileInfo>, have: map<Path, FileInfo>, evs: seq<Event>, p: Path)
    requires Told(last, have, have.Keys + last.Keys, evs)
    ensures p in Known(last, evs) <==> p in have
  {
    MentionedIff(last, have, evs, p);
    if p in have && p !in last {
      assert Create(p) in evs;
    }
  }

  /**
   What each event of a diff says of the two snapshots: a path is created that is new, removed that is gone, and
   modified that is in both with another mode or another time.
   */
  lemma DiffTells(last: map<Path, FileInfo>, have: map<Path, FileInfo>, evs: seq<Event>, p: Path)
    requires Told(last, have, have.Keys + last.Keys, evs)
    ensures Create(p) in evs <==> p in have && p !in last
    ensures Remove(p) in evs <==> p in last && p !in have
    ensures Modify(p) in evs
            <==> p in last && p in have && (have[p].mode != last[p].mode || have[p].modTime != last[p].modTime)
  {
    MentionedIff(last, have, evs, p);
    assert Create(p).target == Modify(p).target == Remove(p).target == p;
    assert Create(p) in evs ==> EventOf(last, have, p) == Some(Create(p));
    assert Modify(p) in evs ==> EventOf(last, have, p) == Some(Modify(p));
    assert Remove(p) in evs ==> EventOf(last, have, p) == Some(Remove(p));
  }

  /** A path seen on its own: absent, created, modified any number of times, removed, and so on. */
  function History(present: bool, evs: seq<Event>, p: Path): Option<bool> {
    if evs == [] then Some(present)
    else match History(present, evs[..|evs| - 1], p)
      case None => None
      case Some(now) =>
        match evs[|evs| - 1]
        case Create(q) => if q != p then Some(now) else if now then None else Some(true)
        case Modify(q) => if q != p then Some(now) else if now then Some(true) else None
        case Remove(q) => if q != p then Some(now) else if now then Some(false) else None
  }

  /** Replaying a set of paths replays the life of every single path. */
  lemma {:induction false} EveryPathHasALife(paths: set<Path>, evs: seq<Event>, p: Path)
    requires Replay(paths, evs).Some?
    ensures History(p in paths, evs, p) == Some(p in Replay(paths, evs).value)
  {
    if evs != [] {
      EveryPathHasALife(paths, evs[..|evs| - 1], p);
    }
  }

  lemma {:induction false} ReplayConcat(paths: set<Path>, a: seq<Event>, b: seq<Event>)
    requires Replay(paths, a).Some?
    ensures Replay(paths, a + b) == Replay(Replay(paths, a).value, b)
  {
    if b == [] {
      assert a + b == a;
    } else {
      assert (a + b)[..|a + b| - 1] == a + b[..|b| - 1];
      ReplayConcat(paths, a, b[..|b| - 1]);
    }
  }

  function Before(last: map<Path, FileInfo>, snaps: seq<map<Path, FileInfo>>, i: nat): map<Path, FileInfo>
    requires i <= |snaps|
  {
    if i == 0 then last else snaps[i - 1]
  }

  ghost predicate DiffAt(last: map<Path, FileInfo>, snaps: seq<map<Path, FileInfo>>, batches: seq<seq<Event>>, i: nat)
    requires i < |snaps| == |batches|
  {
    var before := Before(last, snaps, i);
    Told(before, snaps[i], snaps[i].Keys + before.Keys, batches[i])
  }

  /** Events of a run of diffs over a list of snapshots, each diff in an order of its own. */
  ghost predicate RunOfDiffs(last: map<Path, FileInfo>, snaps: seq<map<Path, FileInfo>>, batches: seq<seq<Event>>) {
    |snaps| == |batches| && forall i :: 0 <= i < |snaps| ==> DiffAt(last, snaps, batches, i)
  }

  function Flatten(batches: seq<seq<Event>>): seq<Event> {
    if batches == [] then [] else Flatten(batches[..|batches| - 1]) + batches[|batches| - 1]
  }

  /** Over any run of snapshots the whole stream is legal and ends at the last snapshot. */
  lemma {:induction false} RunReplays(last: map<Path, FileInfo>, snaps: seq<map<Path, FileInfo>>,
                                      batches: seq<seq<Event>>)
    requires RunOfDiffs(last, snaps, batches)
    ensures Replay(last.Keys, Flatten(batches)) == Some(Before(last, snaps, |snaps|).Keys)
  {
    if snaps != [] {
      var n := |snaps| - 1;
      forall i | 0 <= i < n ensures DiffAt(last, snaps[..n], batches[..n], i) {
        assert DiffAt(last, snaps, batches, i);
      }
      RunReplays(last, snaps[..n], batches[..n]);
      assert DiffAt(last, snaps, batches, n);
      DiffReplays(Before(last, snaps, n), snaps[n], batches[n]);
      ReplayConcat(last.Keys, Flatten(batches[..n]), batches[n]);
    }
  }
}
