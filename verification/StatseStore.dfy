/** The store of the statse aggregator: counters and bounded buffers, one entry per metric, tags and host. */
module StatseStore {
  import opened Bytes
  import opened Collections
  import opened Points
  import opened HostTag

  const MAX_BUFFER_LEN: nat := 10000
  const MAX_KEYS: nat := 3

  datatype Key = Key(metric: Bytes, tags: Bytes, host: Bytes)

  /** A slice that was never appended to is nil; one that was reset is merely empty. */
  datatype Buffer = Nil | Values(v: seq<real>) {
    function Seq(): seq<real> { if Nil? then [] else v }
  }

  datatype Entry = Entry(modTime: int, okay: int, error: int, buffer: seq<Buffer>)

  datatype Statistic = Statistic(key: nat, value: real)

  datatype Event = Event(metric: Bytes, tags: Bytes, error: bool, statistics: seq<Statistic>)

  /** The entry that an event belongs to; an event without a usable host tag is dropped. */
  function KeyOf(ev: Event): Option<Key> {
    match ParseHostTag(ev.tags)
    case None => None
    case Some(found) => Some(Key(ev.metric, found.rest, found.host))
  }

  function NewEntry(): Entry { Entry(0, 0, 0, [Nil, Nil, Nil]) }

  // ---- What an entry stands for ------------------------------------------------------------------------

  /** Everything counted, and for each kind of statistic everything that was measured. */
  datatype Tally = Tally(okay: nat, error: nat, values: seq<multiset<real>>)

  const ZERO_TALLY: Tally := Tally(0, 0, [multiset{}, multiset{}, multiset{}])

  ghost predicate TallyOk(t: Tally) { |t.values| == MAX_KEYS }

  ghost function Plus(a: Tally, b: Tally): (t: Tally)
    requires TallyOk(a) && TallyOk(b)
    ensures TallyOk(t)
  {
    Tally(a.okay + b.okay, a.error + b.error,
          [a.values[0] + b.values[0], a.values[1] + b.values[1], a.values[2] + b.values[2]])
  }

  lemma PlusSwap(a: Tally, b: Tally, c: Tally)
    requires TallyOk(a) && TallyOk(b) && TallyOk(c)
    ensures Plus(a, Plus(b, c)) == Plus(b, Plus(a, c))
  {
    forall i | 0 <= i < MAX_KEYS
      ensures a.values[i] + (b.values[i] + c.values[i]) == b.values[i] + (a.values[i] + c.values[i])
    {
    }
  }

  /** A buffer that has seen these values: all of them up to the limit, then as many of them as fit. */
  ghost predicate Holds(b: Buffer, seen: multiset<real>) {
    if |seen| <= MAX_BUFFER_LEN then multiset(b.Seq()) == seen
    else |b.Seq()| == MAX_BUFFER_LEN && forall x :: x in b.Seq() ==> x in seen
  }

  ghost predicate EntryHolds(e: Entry, t: Tally) {
    && |e.buffer| == MAX_KEYS && TallyOk(t)
    && e.okay == t.okay % TWO_64 && e.error == t.error % TWO_64
    && forall i :: 0 <= i < MAX_KEYS ==> Holds(e.buffer[i], t.values[i])
  }

  // ---- Buffers -----------------------------------------------------------------------------------------

  ghost predicate Overwrites(v: seq<real>, i: int, x: real, r: seq<real>) {
    0 <= i < |v| && r == v[i := x]
  }

  /** Beyond the limit a value overwrites one at a random position. */
  method Append(b: Buffer, x: real, ghost seen: multiset<real>) returns (r: Buffer)
    requires Holds(b, seen)
    ensures Holds(r, seen + multiset{x}) && r.Values?
    ensures if |b.Seq()| < MAX_BUFFER_LEN then r.v == b.Seq() + [x]
            else exists i :: Overwrites(b.Seq(), i, x, r.v)
  {
    HeldLength(b, seen);
    if |b.Seq()| < MAX_BUFFER_LEN {
      r := Values(b.Seq() + [x]);
    } else {
      var i :| 0 <= i < MAX_BUFFER_LEN;
      Overwritten(b, i, x, seen);
      assert Overwrites(b.Seq(), i, x, b.Seq()[i := x]);
      r := Values(b.Seq()[i := x]);
    }
  }

  lemma HeldLength(b: Buffer, seen: multiset<real>)
    requires Holds(b, seen)
    ensures |b.Seq()| == if |seen| <= MAX_BUFFER_LEN then |seen| else MAX_BUFFER_LEN
  {
    assert |multiset(b.Seq())| == |b.Seq()|;
  }

  lemma Overwritten(b: Buffer, i: nat, x: real, seen: multiset<real>)
    requires Holds(b, seen) && |b.Seq()| == MAX_BUFFER_LEN && i < MAX_BUFFER_LEN
    ensures Holds(Values(b.Seq()[i := x]), seen + multiset{x})
  {
    HeldLength(b, seen);
    var r := b.Seq()[i := x];
    assert |seen + multiset{x}| == |seen| + 1;
    forall y | y in r ensures y in seen + multiset{x} {
      var k :| 0 <= k < |r| && r[k] == y;
      if k != i {
        assert b.Seq()[k] in multiset(b.Seq());
        assert y in b.Seq();
      }
    }
  }

  /** Reset keeps nil as it is. */
  function Reset(b: Buffer): Buffer { if b.Nil? then Nil else Values([]) }

  // ---- The store ---------------------------------------------------------------------------------------

  ghost function StatTally(s: Statistic): Tally {
    Tally(0, 0, [if s.key == 0 then multiset{s.value} else multiset{},
                 if s.key == 1 then multiset{s.value} else multiset{},
                 if s.key == 2 then multiset{s.value} else multiset{}])
  }

  ghost function StatsTally(ss: seq<Statistic>): (t: Tally)
    ensures TallyOk(t) && t.okay == 0 && t.error == 0
  {
    if ss == [] then ZERO_TALLY else Plus(StatsTally(ss[..|ss| - 1]), StatTally(ss[|ss| - 1]))
  }

  /** What an event adds: an error counts and drops its statistics. */
  ghost function EventTally(ev: Event): (t: Tally)
    ensures TallyOk(t)
  {
    if ev.error then Tally(0, 1, ZERO_TALLY.values) else StatsTally(ev.statistics).(okay := 1)
  }

  ghost function Written(tallies: map<Key, Tally>, ev: Event): map<Key, Tally>
    requires TalliesOk(tallies)
  {
    match KeyOf(ev)
    case None => tallies
    case Some(k) => tallies[k := Plus(if k in tallies then tallies[k] else ZERO_TALLY, EventTally(ev))]
  }

  ghost predicate TalliesOk(tallies: map<Key, Tally>) {
    forall k :: k in tallies ==> TallyOk(tallies[k])
  }

  ghost function AllWritten(tallies: map<Key, Tally>, evs: seq<Event>): (r: map<Key, Tally>)
    requires TalliesOk(tallies)
    ensures TalliesOk(r)
  {
    if evs == [] then tallies else Written(AllWritten(tallies, evs[..|evs| - 1]), evs[|evs| - 1])
  }

  // ---- What was written for a key ----------------------------------------------------------------------

  /** How many of the events are for this key and ended so. */
  function CountEvents(evs: seq<Event>, k: Key, error: bool): nat {
    if evs == [] then 0
    else
      var ev := evs[|evs| - 1];
      CountEvents(evs[..|evs| - 1], k, error) + if KeyOf(ev) == Some(k) && ev.error == error then 1 else 0
  }

  /** How often a value is among the statistics of one kind. */
  function CountStats(ss: seq<Statistic>, kind: nat, x: real): nat {
    if ss == [] then 0
    else CountStats(ss[..|ss| - 1], kind, x) + if ss[|ss| - 1] == Statistic(kind, x) then 1 else 0
  }

  /** How often it is among those of the events for this key that are no errors. */
  function CountValues(evs: seq<Event>, k: Key, kind: nat, x: real): nat {
    if evs == [] then 0
    else
      var ev := evs[|evs| - 1];
      CountValues(evs[..|evs| - 1], k, kind, x)
      + if KeyOf(ev) == Some(k) && !ev.error then CountStats(ev.statistics, kind, x) else 0
  }

  ghost predicate HasKind(t: Tally, kind: nat, x: real, n: nat) {
    TallyOk(t) && kind < MAX_KEYS && t.values[kind][x] == n
  }

  lemma {:induction false} StatsAreCounted(ss: seq<Statistic>, kind: nat, x: real)
    requires kind < MAX_KEYS
    ensures HasKind(StatsTally(ss), kind, x, CountStats(ss, kind, x))
  {
    if ss != [] {
      StatsAreCounted(ss[..|ss| - 1], kind, x);
    }
  }

  lemma EventIsCounted(ev: Event, kind: nat, x: real)
    requires kind < MAX_KEYS
    ensures HasKind(EventTally(ev), kind, x, if ev.error then 0 else CountStats(ev.statistics, kind, x))
    ensures EventTally(ev).okay == (if ev.error then 0 else 1) && EventTally(ev).error == if ev.error then 1 else 0
  {
    StatsAreCounted(ev.statistics, kind, x);
  }

  /** What the books say of a key, in numbers. */
  ghost predicate Says(tallies: map<Key, Tally>, k: Key, okay: nat, error: nat, kind: nat, x: real, n: nat) {
    if k in tallies then tallies[k].okay == okay && tallies[k].error == error && HasKind(tallies[k], kind, x, n)
    else okay == 0 && error == 0 && n == 0
  }

  lemma SaysMore(tallies: map<Key, Tally>, ev: Event, k: Key, okay: nat, error: nat, kind: nat, x: real, n: nat)
    requires TalliesOk(tallies) && Says(tallies, k, okay, error, kind, x, n) && kind < MAX_KEYS
    ensures if KeyOf(ev) != Some(k) then Says(Written(tallies, ev), k, okay, error, kind, x, n)
            else if ev.error then Says(Written(tallies, ev), k, okay, error + 1, kind, x, n)
            else Says(Written(tallies, ev), k, okay + 1, error, kind, x, n + CountStats(ev.statistics, kind, x))
  {
    if KeyOf(ev) == Some(k) {
      SaysOwn(tallies, ev, k, okay, error, kind, x, n);
    } else {
      OtherKeysKept(tallies, ev, k);
    }
  }

  lemma OtherKeysKept(tallies: map<Key, Tally>, ev: Event, k: Key)
    requires TalliesOk(tallies) && KeyOf(ev) != Some(k)
    ensures k in Written(tallies, ev) <==> k in tallies
    ensures k in tallies ==> Written(tallies, ev)[k] == tallies[k]
  {
  }

  ghost function BookOf(tallies: map<Key, Tally>, k: Key): Tally {
    if k in tallies then tallies[k] else ZERO_TALLY
  }

  lemma WrittenIs(tallies: map<Key, Tally>, ev: Event, k: Key)
    requires TalliesOk(tallies) && KeyOf(ev) == Some(k)
    ensures TallyOk(BookOf(tallies, k))
    ensures Written(tallies, ev) == tallies[k := Plus(BookOf(tallies, k), EventTally(ev))]
  {
  }

  lemma BookSays(tallies: map<Key, Tally>, k: Key, okay: nat, error: nat, kind: nat, x: real, n: nat)
    requires kind < MAX_KEYS && Says(tallies, k, okay, error, kind, x, n)
    ensures var t := BookOf(tallies, k); t.okay == okay && t.error == error && HasKind(t, kind, x, n)
  {
    if k !in tallies {
      assert ZERO_TALLY.values[kind] == multiset{};
    }
  }

  lemma SaysOwn(tallies: map<Key, Tally>, ev: Event, k: Key, okay: nat, error: nat, kind: nat, x: real, n: nat)
    requires TalliesOk(tallies) && Says(tallies, k, okay, error, kind, x, n) && kind < MAX_KEYS && KeyOf(ev) == Some(k)
    ensures if ev.error then Says(Written(tallies, ev), k, okay, error + 1, kind, x, n)
            else Says(Written(tallies, ev), k, okay + 1, error, kind, x, n + CountStats(ev.statistics, kind, x))
  {
    BookSays(tallies, k, okay, error, kind, x, n);
    WrittenIs(tallies, ev, k);
    EventIsCounted(ev, kind, x);
    PlusCounts(BookOf(tallies, k), EventTally(ev), kind, x, n,
               if ev.error then 0 else CountStats(ev.statistics, kind, x));
  }

  lemma PlusCounts(a: Tally, b: Tally, kind: nat, x: real, n: nat, m: nat)
    requires HasKind(a, kind, x, n) && HasKind(b, kind, x, m)
    ensures HasKind(Plus(a, b), kind, x, n + m)
  {
    assert Plus(a, b).values[kind] == a.values[kind] + b.values[kind];
  }

  /**
   What is written for a key: so many events that were no errors and so many that were, and every value as often as the
   former brought it. An error brings no values.
   */
  lemma {:induction false} WrittenIsCounted(evs: seq<Event>, k: Key, kind: nat, x: real)
    requires kind < MAX_KEYS
    ensures Says(AllWritten(map[], evs), k, CountEvents(evs, k, false), CountEvents(evs, k, true), kind, x,
                 CountValues(evs, k, kind, x))
  {
    if evs != [] {
      var front := evs[..|evs| - 1];
      WrittenIsCounted(front, k, kind, x);
      SaysMore(AllWritten(map[], front), evs[|evs| - 1], k, CountEvents(front, k, false), CountEvents(front, k, true),
               kind, x, CountValues(front, k, kind, x));
    }
  }

  // ---- Events as objects -------------------------------------------------------------------------------

  /** An event in memory; writing it strips its host tag. */
  class EventObject {
    const metric: Bytes
    var tags: Bytes
    const error: bool
    const statistics: seq<Statistic>

    function Contents(): Event
      reads this
    {
      With(tags)
    }

    function With(tags: Bytes): Event { Event(metric, tags, error, statistics) }

    constructor (ev: Event)
      ensures Contents() == ev
    {
      metric, tags, error, statistics := ev.metric, ev.tags, ev.error, ev.statistics;
    }

    /** Finds the host, and strips its tag; without one the tags stay. */
    method ParseHost() returns (host: Option<Bytes>)
      modifies this`tags
      ensures tags == Stripped(old(tags))
      ensures match ParseHostTag(old(tags)) case None => host == None case Some(found) => host == Some(found.host)
    {
      var found := ParseHostTag(tags);
      if found.None? {
        return None;
      }
      tags := found.value.rest;
      return Some(found.value.host);
    }
  }

  function Stripped(tags: Bytes): Bytes {
    match ParseHostTag(tags) case None => tags case Some(found) => found.rest
  }

  /** What was written, and the tags of each event as they are now. */
  datatype Ledger = Ledger(tallies: map<Key, Tally>, tags: map<EventObject, Bytes>)

  ghost predicate LedgerOk(l: Ledger, evs: seq<EventObject>) {
    TalliesOk(l.tallies) && forall i :: 0 <= i < |evs| ==> evs[i] in l.tags
  }

  ghost function Entered(l: Ledger, ev: EventObject): Ledger
    requires TalliesOk(l.tallies) && ev in l.tags
  {
    Ledger(Written(l.tallies, ev.With(l.tags[ev])), l.tags[ev := Stripped(l.tags[ev])])
  }

  /** The ledger after these events; one that is given twice is met again without its host tag. */
  ghost function AllEntered(l: Ledger, evs: seq<EventObject>): (r: Ledger)
    requires LedgerOk(l, evs)
    ensures TalliesOk(r.tallies) && r.tags.Keys == l.tags.Keys
  {
    if evs == [] then l else Entered(AllEntered(l, evs[..|evs| - 1]), evs[|evs| - 1])
  }

  lemma FirstEntered(l: Ledger, evs: seq<EventObject>, i: nat)
    requires LedgerOk(l, evs) && i < |evs|
    ensures AllEntered(l, evs[..i + 1]) == Entered(AllEntered(l, evs[..i]), evs[i])
  {
    assert evs[..i + 1][..i] == evs[..i];
  }

  ghost function TagsOf(evs: seq<EventObject>): map<EventObject, Bytes>
    reads evs
  {
    map ev | ev in evs :: ev.tags
  }

  function AllContents(evs: seq<EventObject>): (r: seq<Event>)
    reads evs
    ensures |r| == |evs| && forall i :: 0 <= i < |evs| ==> r[i] == evs[i].Contents()
  {
    if evs == [] then [] else AllContents(evs[..|evs| - 1]) + [evs[|evs| - 1].Contents()]
  }

  ghost predicate DifferentEvents(evs: seq<EventObject>) {
    forall i, j :: 0 <= i < j < |evs| ==> evs[i] != evs[j]
  }

  lemma {:induction false} DifferentAreEntered(l: Ledger, evs: seq<EventObject>)
    requires LedgerOk(l, evs) && DifferentEvents(evs)
    requires forall i :: 0 <= i < |evs| ==> l.tags[evs[i]] == evs[i].tags
    ensures AllEntered(l, evs).tallies == AllWritten(l.tallies, AllContents(evs))
    ensures forall ev :: ev in l.tags ==>
              AllEntered(l, evs).tags[ev] == if ev in evs then Stripped(l.tags[ev]) else l.tags[ev]
  {
    if evs != [] {
      var front, last := evs[..|evs| - 1], evs[|evs| - 1];
      DifferentAreEntered(l, front);
      assert last !in front;
      FrontLast(evs);
      assert AllContents(evs)[..|evs| - 1] == AllContents(front);
    }
  }

  ghost predicate StoreHolds(m: map<Key, Entry>, tallies: map<Key, Tally>) {
    m.Keys == tallies.Keys && forall k :: k in m ==> EntryHolds(m[k], tallies[k])
  }

  predicate KnownKeys(ss: seq<Statistic>) {
    forall i :: 0 <= i < |ss| ==> ss[i].key < MAX_KEYS
  }

  /** Every entry was written just now, or is as it was. */
  ghost predicate Touched(m0: map<Key, Entry>, m: map<Key, Entry>, now: int) {
    forall k :: k in m ==> m[k].modTime == now || (k in m0 && m[k] == m0[k])
  }

  method AppendAll(e: Entry, ss: seq<Statistic>, ghost t: Tally) returns (r: Entry)
    requires EntryHolds(e, t) && KnownKeys(ss)
    ensures EntryHolds(r, Plus(t, StatsTally(ss))) && r.modTime == e.modTime
  {
    r := e;
    PlusZero(t);
    for i := 0 to |ss|
      invariant EntryHolds(r, Plus(t, StatsTally(ss[..i]))) && r.modTime == e.modTime
    {
      assert ss[..i + 1][..i] == ss[..i];
      ghost var now := Plus(t, StatsTally(ss[..i]));
      PlusStat(t, StatsTally(ss[..i]), ss[i]);
      var k := ss[i].key;
      var b := Append(r.buffer[k], ss[i].value, now.values[k]);
      r := r.(buffer := r.buffer[k := b]);
    }
    assert ss[..|ss|] == ss;
  }

  lemma PlusZero(t: Tally)
    requires TallyOk(t)
    ensures Plus(t, ZERO_TALLY) == t && Plus(ZERO_TALLY, t) == t
  {
    assert t.values == [t.values[0], t.values[1], t.values[2]];
    forall i | 0 <= i < MAX_KEYS
      ensures t.values[i] + multiset{} == t.values[i] && multiset{} + t.values[i] == t.values[i]
    {
    }
  }

  /** One more statistic adds its value to its own kind and changes no other. */
  lemma PlusStat(t: Tally, u: Tally, s: Statistic)
    requires TallyOk(t) && TallyOk(u) && s.key < MAX_KEYS
    ensures var a := Plus(t, u); var b := Plus(t, Plus(u, StatTally(s)));
            && b.okay == a.okay && b.error == a.error
            && b.values == a.values[s.key := a.values[s.key] + multiset{s.value}]
  {
    var a, b := Plus(t, u), Plus(t, Plus(u, StatTally(s)));
    forall i | 0 <= i < MAX_KEYS
      ensures b.values[i] == a.values[s.key := a.values[s.key] + multiset{s.value}][i]
    {
    }
  }

  /** Among the entries visited, those last written before the limit are gone; all others are as they were. */
  ghost predicate Swept(m0: map<Key, Entry>, m: map<Key, Entry>, done: set<Key>, limit: int) {
    && (forall k :: k in m ==> k in m0 && m[k] == m0[k])
    && (forall k :: k in m0 ==> (k in m <==> k !in done || m0[k].modTime >= limit))
  }

  class Store {
    var m: map<Key, Entry>
    ghost var tallies: map<Key, Tally>

    ghost predicate Valid()
      reads this
    {
      TalliesOk(tallies) && StoreHolds(m, tallies)
    }

    constructor ()
      ensures Valid() && m == map[]
    {
      m, tallies := map[], map[];
    }

    /**
     Accumulation is exact: counts modulo 2^64, and every value as long as a buffer has room. The events lose their
     host tags.
     */
    method Write(evs: seq<EventObject>, now: int)
      requires Valid() && forall i :: 0 <= i < |evs| ==> KnownKeys(evs[i].statistics)
      modifies this, evs
      ensures Valid() && tallies == AllEntered(Ledger(old(tallies), old(TagsOf(evs))), evs).tallies
      ensures TagsOf(evs) == AllEntered(Ledger(old(tallies), old(TagsOf(evs))), evs).tags
      ensures Touched(old(m), m, now)
    {
      ghost var before := Ledger(tallies, TagsOf(evs));
      ghost var met, m0 := before, m;
      assert evs[..0] == [];
      for i := 0 to |evs|
        invariant LedgerOk(before, evs) && met == AllEntered(before, evs[..i]) && met.tags.Keys == before.tags.Keys
        invariant Matches(met) && Touched(m0, m, now)
      {
        FirstEntered(before, evs, i);
        ghost var m1 := m;
        met := WriteNext(evs[i], now, met);
        StillTouched(m0, m1, m, now);
      }
      assert evs[..|evs|] == evs;
    }

    /** The ledger is that of the store, and of the events it mentions. */
    ghost predicate Matches(l: Ledger)
      reads this, l.tags.Keys
    {
      Valid() && tallies == l.tallies && forall ev :: ev in l.tags ==> ev.tags == l.tags[ev]
    }

    method WriteNext(ev: EventObject, now: int, ghost l: Ledger) returns (ghost next: Ledger)
      requires Matches(l) && ev in l.tags && KnownKeys(ev.statistics)
      modifies this, ev
      ensures TalliesOk(l.tallies) && next == Entered(l, ev) && Matches(next) && Touched(old(m), m, now)
    {
      next := Entered(l, ev);
      WriteOne(ev, now);
    }

    /** Forgets the entries that were not written to for longer than the timeout, and no others. */
    method Cleanup(now: int, timeout: int)
      requires Valid()
      modifies this
      ensures Valid()
      ensures m == map k | k in old(m) && !(now - old(m)[k].modTime > timeout) :: old(m)[k]
      ensures tallies == map k | k in old(tallies) && k in m :: old(tallies)[k]
    {
      var todo := m.Keys;
      ghost var m0, t0, done: set<Key> := m, tallies, {};
      while todo != {}
        invariant Visiting(m0.Keys, todo, done)
        invariant Swept(m0, m, done, now - timeout)
        decreases |todo|
      {
        var key :| key in todo;
        VisitOne(m0.Keys, todo, done, key);
        if now - m[key].modTime > timeout {
          m := m - {key};
        }
        todo, done := todo - {key}, done + {key};
      }
      VisitedAll(m0.Keys, done);
      assert m == map k | k in m0 && !(now - m0[k].modTime > timeout) :: m0[k];
      tallies := map k | k in t0 && k in m :: t0[k];
    }

    method WriteOne(ev: EventObject, now: int)
      requires Valid() && KnownKeys(ev.statistics)
      modifies this, ev`tags
      ensures Valid() && tallies == Written(old(tallies), old(ev.Contents())) && ev.tags == Stripped(old(ev.tags))
      ensures Touched(old(m), m, now)
    {
      ghost var value := ev.Contents();
      var host := ev.ParseHost();
      if host.None? {
        return;
      }
      var key := Key(ev.metric, ev.tags, host.value);
      var entry := NewEntry();
      ghost var t := if key in tallies then tallies[key] else ZERO_TALLY;
      if key in m {
        entry := m[key];
      }
      EmptyHolds();
      entry := UpdateEntry(entry, ev.error, ev.statistics, now, t, value);
      StoreOne(m, tallies, key, entry, Plus(t, EventTally(value)));
      tallies := tallies[key := Plus(t, EventTally(value))];
      m := m[key := entry];
    }
  }

  method UpdateEntry(e: Entry, error: bool, statistics: seq<Statistic>, now: int, ghost t: Tally, ghost ev: Event)
    returns (r: Entry)
    requires EntryHolds(e, t) && KnownKeys(statistics) && ev.error == error && ev.statistics == statistics
    ensures EntryHolds(r, Plus(t, EventTally(ev))) && r.modTime == now
  {
    r := e.(modTime := now);
    assert EntryHolds(r, t);
    if error {
      CountHolds(r, t, false);
      r := r.(error := (r.error + 1) % TWO_64);
      return;
    }
    CountHolds(r, t, true);
    EventIs(t, ev);
    r := r.(okay := (r.okay + 1) % TWO_64);
    r := AppendAll(r, statistics, t.(okay := t.okay + 1));
  }

  lemma StillTouched(m0: map<Key, Entry>, m1: map<Key, Entry>, m2: map<Key, Entry>, now: int)
    requires Touched(m0, m1, now) && Touched(m1, m2, now)
    ensures Touched(m0, m2, now)
  {
  }

  lemma EmptyHolds()
    ensures EntryHolds(NewEntry(), ZERO_TALLY)
  {
  }

  lemma StoreOne(m: map<Key, Entry>, tallies: map<Key, Tally>, k: Key, e: Entry, t: Tally)
    requires TalliesOk(tallies) && StoreHolds(m, tallies) && EntryHolds(e, t)
    ensures TalliesOk(tallies[k := t]) && StoreHolds(m[k := e], tallies[k := t])
  {
  }

  lemma CountHolds(e: Entry, t: Tally, okay: bool)
    requires EntryHolds(e, t)
    ensures okay ==> EntryHolds(e.(okay := (e.okay + 1) % TWO_64), t.(okay := t.okay + 1))
    ensures !okay ==> EntryHolds(e.(error := (e.error + 1) % TWO_64), Plus(t, Tally(0, 1, ZERO_TALLY.values)))
  {
    ModOne(t.okay);
    ModOne(t.error);
    PlusZero(t);
  }

  lemma ModOne(n: int)
    ensures (n % TWO_64 + 1) % TWO_64 == (n + 1) % TWO_64
  {
  }

  lemma EventIs(t: Tally, ev: Event)
    requires TallyOk(t) && !ev.error
    ensures Plus(t.(okay := t.okay + 1), StatsTally(ev.statistics)) == Plus(t, EventTally(ev))
  {
  }
}
