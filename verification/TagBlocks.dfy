/**
 The tag block of a point: the bytes " k=v k=v" that the program searches and rewrites in place. Every
 operation is stated on the list of tags that the block spells out.
 */
module TagBlocks {
  import opened Bytes
  import opened Collections
  import opened Points

  const MAX_TAGS: nat := 8

  /** The key that names a host. */
  const HOST: Bytes := [104, 111, 115, 116]

  datatype Tag = Tag(k: Bytes, v: Bytes)

  datatype TagError = MissingValue | InvalidTag | DuplicateKey | TruncatedTags | TooManyTags

  datatype TagResult = Tagged(tags: seq<Tag>) | TagFailure(error: TagError)

  /** The bytes of metric names, keys and values. Bytes from 128 up stand for the runes outside ASCII. */
  predicate IsTextByte(c: byte) {
    || 97 <= c <= 122
    || 65 <= c <= 90
    || 48 <= c <= 57
    || c == 45 || c == 95 || c == 46 || c == 47
    || c >= 128
  }

  predicate ValidText(b: Bytes) {
    b != [] && forall i :: 0 <= i < |b| ==> IsTextByte(b[i])
  }

  predicate ValidTag(t: Tag) { ValidText(t.k) && ValidText(t.v) }

  ghost predicate Distinct(ts: seq<Tag>) {
    forall i, j :: 0 <= i < j < |ts| ==> ts[i].k != ts[j].k
  }

  ghost predicate AllValid(ts: seq<Tag>) {
    forall i :: 0 <= i < |ts| ==> ValidTag(ts[i])
  }

  ghost predicate WellFormed(ts: seq<Tag>) {
    AllValid(ts) && Distinct(ts)
  }

  function TagText(t: Tag): Bytes { t.k + [EQUALS] + t.v }

  function Chunk(t: Tag): Bytes { [SPACE] + TagText(t) }

  function Block(ts: seq<Tag>): Bytes {
    if ts == [] then [] else Chunk(ts[0]) + Block(ts[1..])
  }

  function Lookup(ts: seq<Tag>, key: Bytes): Option<Bytes> {
    if ts == [] then None
    else if ts[0].k == key then Some(ts[0].v)
    else Lookup(ts[1..], key)
  }

  ghost predicate HasKey(ts: seq<Tag>, key: Bytes) {
    exists i :: 0 <= i < |ts| && ts[i].k == key
  }

  function ToMap(ts: seq<Tag>): map<Bytes, Bytes> {
    if ts == [] then map[] else ToMap(ts[1..])[ts[0].k := ts[0].v]
  }

  // ---- Facts about blocks ------------------------------------------------------------------------------

  lemma {:induction false} BlockConcat(a: seq<Tag>, b: seq<Tag>)
    ensures Block(a + b) == Block(a) + Block(b)
  {
    if a == [] {
      assert a + b == b;
    } else {
      BlockConcat(a[1..], b);
      assert (a + b)[1..] == a[1..] + b;
      ConcatAssoc(Chunk(a[0]), Block(a[1..]), Block(b));
    }
  }

  lemma BlockOne(t: Tag)
    ensures Block([t]) == Chunk(t)
  {
    assert Block([t]) == Chunk(t) + Block([]);
  }

  /** One tag in front of a list is its text in front of the block. */
  lemma BlockCons(t: Tag, ts: seq<Tag>)
    ensures Block([t] + ts) == [SPACE] + t.k + [EQUALS] + t.v + Block(ts)
  {
    assert ([t] + ts)[1..] == ts;
    ChunkIs(t);
  }

  lemma ChunkIs(t: Tag)
    ensures Chunk(t) == [SPACE] + t.k + [EQUALS] + t.v
  {
  }

  lemma BlockStart(ts: seq<Tag>)
    ensures Block(ts) == [] <==> ts == []
    ensures ts != [] ==> Block(ts)[0] == SPACE
  {
  }

  /** What separates the tags of a block: none of it is inside a tag. */
  predicate Plain(t: Tag) {
    SPACE !in t.k && EQUALS !in t.k && SPACE !in t.v
  }

  lemma ValidIsPlain(t: Tag)
    requires ValidTag(t)
    ensures Plain(t) && EQUALS !in t.v && TAB !in t.k && TAB !in t.v && t.k != [] && t.v != []
    ensures NEWLINE !in t.k && NEWLINE !in t.v && CARRIAGE_RETURN !in t.k && CARRIAGE_RETURN !in t.v
  {
  }

  lemma TagTextHasNoSpace(t: Tag)
    requires Plain(t)
    ensures SPACE !in TagText(t)
  {
  }

  /** Where a key stands in a list of tags, the block holds " key=". */
  lemma {:induction false} KeyIsHit(ts: seq<Tag>, x: nat) returns (p: nat)
    requires x < |ts|
    ensures HitAt(Block(ts), ts[x].k, p + 1)
    ensures p + 1 + |ts[x].k| < |Block(ts)|
    ensures Block(ts)[p] == SPACE && Block(ts)[p + 1 + |ts[x].k|] == EQUALS
    ensures x == 0 ==> p == 0
  {
    var c, rest := Chunk(ts[0]), Block(ts[1..]);
    if x == 0 {
      p := 0;
      ChunkIs(ts[0]);
      HeadHit(ts[0].k, ts[0].v, rest);
    } else {
      var q := KeyIsHit(ts[1..], x - 1);
      p := q + |c|;
      HitMoves(c, rest, ts[x].k, q);
    }
  }

  lemma HeadHit(k: Bytes, v: Bytes, rest: Bytes)
    ensures var s := ([SPACE] + k + [EQUALS] + v) + rest;
            HitAt(s, k, 1) && s[0] == SPACE && s[1 + |k|] == EQUALS
  {
    var s := ([SPACE] + k + [EQUALS] + v) + rest;
    assert s[1..1 + |k|] == k;
  }

  lemma HitMoves(c: Bytes, rest: Bytes, k: Bytes, q: nat)
    requires HitAt(rest, k, q + 1) && q + 1 + |k| < |rest|
    ensures HitAt(c + rest, k, q + |c| + 1) && (c + rest)[q + |c|] == rest[q]
    ensures (c + rest)[q + |c| + 1 + |k|] == rest[q + 1 + |k|]
  {
    assert (c + rest)[q + |c| + 1..q + |c| + 1 + |k|] == rest[q + 1..q + 1 + |k|];
  }

  /** A hit of a key: space-free, after a space, before '=', and the first occurrence. */
  ghost predicate KeyHit(s: Bytes, key: Bytes, i: int) {
    && HitAt(s, key, i) && 1 <= i && i + |key| < |s|
    && s[i - 1] == SPACE && s[i + |key|] == EQUALS
    && forall j :: 0 <= j < i ==> !HitAt(s, key, j)
  }

  /** A key hit past the first tag is one of the rest, and the first tag has another key. */
  lemma HitMovesOn(t: Tag, rest: Bytes, key: Bytes, i: int)
    requires ValidTag(t) && SPACE !in key && i != 1
    requires KeyHit(Chunk(t) + rest, key, i) && (rest == [] || rest[0] == SPACE)
    ensures t.k != key && KeyHit(rest, key, i - |Chunk(t)|)
  {
    var c := Chunk(t);
    var s, q := c + rest, i - |c|;
    ValidIsPlain(t);
    TagTextHasNoSpace(t);
    assert forall j :: 1 <= j < |c| ==> c[j] != SPACE;
    assert rest[q..q + |key|] == s[i..i + |key|];
    forall j | 0 <= j < q ensures !HitAt(rest, key, j) {
      HitShifts(c, rest, key, j);
    }
    assert c[1..1 + |t.k|] == t.k;
    assert s[1..1 + |t.k|] == t.k;
    assert HitAt(s, t.k, 1);
  }

  lemma DropPast(c: Bytes, rest: Bytes, j: nat)
    requires j <= |rest|
    ensures (c + rest)[|c| + j..] == rest[j..]
  {
  }

  /** The x-th tag is the first with that key, and its value follows the hit. */
  ghost predicate KeyOfTag(ts: seq<Tag>, key: Bytes, i: nat, x: nat) {
    && x < |ts| && ts[x].k == key && (forall y :: 0 <= y < x ==> ts[y].k != key)
    && i + |key| + 1 <= |Block(ts)| && Block(ts)[i + |key| + 1..] == ts[x].v + Block(ts[x + 1..])
  }

  lemma KeyOfLaterTag(ts: seq<Tag>, key: Bytes, j: nat, y: nat)
    requires ts != [] && ts[0].k != key && KeyOfTag(ts[1..], key, j, y)
    ensures KeyOfTag(ts, key, |Chunk(ts[0])| + j, y + 1)
  {
    DropPast(Chunk(ts[0]), Block(ts[1..]), j + |key| + 1);
    DropDrop(ts, 1, y + 1);
  }

  lemma KeyOfFirstTag(ts: seq<Tag>, key: Bytes)
    requires ts != [] && ValidTag(ts[0]) && SPACE !in key && KeyHit(Block(ts), key, 1)
    ensures KeyOfTag(ts, key, 1, 0)
  {
    BlockStart(ts[1..]);
    HitInFirstTag(ts[0], Block(ts[1..]), key);
  }

  lemma KeyPastFirstTag(ts: seq<Tag>, key: Bytes, i: nat)
    requires ts != [] && ValidTag(ts[0]) && SPACE !in key && KeyHit(Block(ts), key, i) && i != 1
    ensures ts[0].k != key && i >= |Chunk(ts[0])| && KeyHit(Block(ts[1..]), key, i - |Chunk(ts[0])|)
  {
    BlockStart(ts[1..]);
    HitMovesOn(ts[0], Block(ts[1..]), key, i);
  }

  /** Such a hit is the whole key of some tag, the first with that key, whose value follows the hit. */
  lemma {:induction false} HitIsKey(ts: seq<Tag>, key: Bytes, i: nat) returns (x: nat)
    requires AllValid(ts) && SPACE !in key && KeyHit(Block(ts), key, i)
    ensures KeyOfTag(ts, key, i, x)
  {
    if i == 1 {
      x := 0;
      KeyOfFirstTag(ts, key);
    } else {
      KeyPastFirstTag(ts, key, i);
      var y := HitIsKey(ts[1..], key, i - |Chunk(ts[0])|);
      x := y + 1;
      KeyOfLaterTag(ts, key, i - |Chunk(ts[0])|, y);
    }
  }

  lemma HitShifts(c: Bytes, rest: Bytes, key: Bytes, j: nat)
    ensures HitAt(rest, key, j) ==> HitAt(c + rest, key, |c| + j)
  {
    if HitAt(rest, key, j) {
      assert (c + rest)[|c| + j..|c| + j + |key|] == rest[j..j + |key|];
    }
  }

  /** In "k=v" followed by nothing or a space, a space-free key that ends at an '=' ends at the first one. */
  lemma KeyLength(s: Bytes, k: Bytes, v: Bytes, rest: Bytes, key: Bytes)
    requires s == k + [EQUALS] + v + rest && EQUALS !in k && EQUALS !in v && (rest == [] || rest[0] == SPACE)
    requires SPACE !in key && |key| < |s| && s[..|key|] == key && s[|key|] == EQUALS
    ensures |key| == |k|
  {
    assert forall j :: 0 <= j < |k| ==> s[j] == k[j];
    assert forall j :: 0 <= j < |v| ==> s[|k| + 1 + j] == v[j];
    assert rest != [] ==> s[|k| + 1 + |v|] == rest[0];
    assert forall j :: 0 <= j < |key| ==> s[j] == key[j];
  }

  lemma HitInFirstTag(t: Tag, rest: Bytes, key: Bytes)
    requires ValidTag(t) && SPACE !in key
    requires rest == [] || rest[0] == SPACE
    requires HitAt(Chunk(t) + rest, key, 1) && 1 + |key| < |Chunk(t) + rest|
    requires (Chunk(t) + rest)[1 + |key|] == EQUALS
    ensures t.k == key
    ensures (Chunk(t) + rest)[|key| + 2..] == t.v + rest
  {
    ValidIsPlain(t);
    var s, whole := t.k + [EQUALS] + t.v + rest, Chunk(t) + rest;
    assert whole == [SPACE] + s;
    assert s[..|key|] == whole[1..1 + |key|];
    KeyLength(s, t.k, t.v, rest, key);
    assert s[..|t.k|] == t.k;
    assert whole[|key| + 2..] == t.v + rest;
  }

  lemma {:induction false} LookupFirst(ts: seq<Tag>, x: nat)
    requires x < |ts| && forall y :: 0 <= y < x ==> ts[y].k != ts[x].k
    ensures Lookup(ts, ts[x].k) == Some(ts[x].v)
  {
    if x > 0 {
      LookupFirst(ts[1..], x - 1);
    }
  }

  lemma HasKeyCons(ts: seq<Tag>, key: Bytes)
    requires ts != []
    ensures HasKey(ts, key) <==> ts[0].k == key || HasKey(ts[1..], key)
  {
    assert forall i :: 0 < i < |ts| ==> ts[i] == ts[1..][i - 1];
    assert forall i :: 0 <= i < |ts[1..]| ==> ts[1..][i] == ts[i + 1];
  }

  lemma {:induction false} LookupNone(ts: seq<Tag>, key: Bytes)
    ensures Lookup(ts, key) == None <==> !HasKey(ts, key)
  {
    if ts != [] {
      LookupNone(ts[1..], key);
      HasKeyCons(ts, key);
    }
  }

  // ---- Point.Tag ---------------------------------------------------------------------------------------

  ghost predicate Spans(block: Bytes, lo: int, hi: int, v: Option<Bytes>) {
    0 <= lo <= hi <= |block| && v == Some(block[lo..hi])
  }

  /** What Point.Tag comes to. The empty key hits at 0, and if there is a tag the byte before that is looked at. */
  datatype Search = Hit(value: Bytes) | Miss | Crash

  function TagSearch(ts: seq<Tag>, key: Bytes): Search {
    if key == [] then
      if ts == [] then Miss else Crash
    else match Lookup(ts, key)
      case Some(v) => Hit(v)
      case None => Miss
  }

  datatype Verdict = Found | Absent | Crashes | TryNext

  /** Where the value of the key stands in a block; hits inside other keys and values are skipped, tag by tag. */
  method TagRange(block: Bytes, key: Bytes, ghost ts: seq<Tag>) returns (verdict: Verdict, lo: nat, hi: nat)
    requires block == Block(ts) && AllValid(ts)
    ensures match TagSearch(ts, key)
            case Hit(v) => verdict == Found && Spans(block, lo, hi, Some(v))
            case Miss => verdict == Absent
            case Crash => verdict == Crashes
  {
    if SPACE in key {
      SpacedKeyIsAbsent(ts, key);
      return Absent, 0, 0;
    }
    var base: nat := 0;
    ghost var left := ts;
    while true
      invariant base <= |block| && block[base..] == Block(left) && AllValid(left)
      invariant TagSearch(left, key) == TagSearch(ts, key)
      decreases |left|
    {
      var next;
      verdict, lo, hi, next := Probe(block, base, key, left);
      if verdict != TryNext {
        return;
      }
      base := next;
      left := left[1..];
    }
    assert false;
  }

  /** One round of the search: the first hit is the tag, or there is none, or the search moves to the next tag. */
  method Probe(block: Bytes, base: nat, key: Bytes, ghost left: seq<Tag>)
    returns (verdict: Verdict, lo: nat, hi: nat, next: nat)
    requires base <= |block| && block[base..] == Block(left) && AllValid(left) && SPACE !in key
    ensures match verdict
            case Found => key != [] && Spans(block, lo, hi, Lookup(left, key))
            case Absent => TagSearch(left, key) == Miss
            case Crashes => TagSearch(left, key) == Crash
            case TryNext =>
              && key != [] && left != [] && AllValid(left[1..]) && Lookup(left[1..], key) == Lookup(left, key)
              && next <= |block| && block[next..] == Block(left[1..])
  {
    var tags := block[base..];
    var i := Index(tags, key);
    FirstHit(left, key);
    if i == -1 {
      return Absent, 0, 0, 0;
    }
    if |tags[i + |key|..]| == 0 {
      return Absent, 0, 0, 0;
    }
    if i == 0 {
      // The program looks at tags[i - 1] here.
      return Crashes, 0, 0, 0;
    }
    if tags[i - 1] == SPACE && tags[i + |key|] == EQUALS {
      var from: nat := i + |key| + 1;
      lo := base + from;
      hi := FindEnd(block, lo);
      ExactRange(block, base, left, key, i, from, lo, hi);
      return Found, lo, hi, 0;
    }
    InexactHit(left, key);
    verdict, next := SkipTag(block, base, left);
    return verdict, 0, 0, next;
  }

  /**
   The first hit is at 0 exactly for the empty key; without a hit, or with one that ends the block, no tag matches.
   */
  lemma FirstHit(ts: seq<Tag>, key: Bytes)
    requires AllValid(ts) && SPACE !in key
    ensures var i := Index(Block(ts), key);
            && (i == 0 <==> key == [])
            && (i == -1 || i + |key| == |Block(ts)| ==> TagSearch(ts, key) == Miss)
            && (i == 0 && |Block(ts)| > 0 ==> TagSearch(ts, key) == Crash)
  {
    BlockStart(ts);
    if key == [] {
      assert HitAt(Block(ts), key, 0);
    } else {
      NoHitNoKey(ts, key);
    }
  }

  method SkipTag(block: Bytes, base: nat, ghost left: seq<Tag>) returns (verdict: Verdict, next: nat)
    requires base <= |block| && block[base..] == Block(left) && left != [] && Plain(left[0])
    ensures if |left| == 1 then verdict == Absent
            else verdict == TryNext && next <= |block| && block[next..] == Block(left[1..])
  {
    NextTagAt(left);
    var j := IndexByte(block[base..][1..], SPACE);
    if j == -1 {
      return Absent, 0;
    }
    DropDrop(block, base, j + 1);
    return TryNext, base + (j + 1);
  }

  method TagOf(p: Point, key: Bytes, ghost ts: seq<Tag>) returns (r: Search)
    requires p.tags == Block(ts) && AllValid(ts)
    ensures r == TagSearch(ts, key)
  {
    var verdict, lo, hi := TagRange(p.tags, key, ts);
    if verdict == Crashes {
      return Crash;
    }
    return if verdict == Found then Hit(p.tags[lo..hi]) else Miss;
  }

  lemma SpacedKeyIsAbsent(ts: seq<Tag>, key: Bytes)
    requires AllValid(ts) && SPACE in key
    ensures Lookup(ts, key) == None
  {
    LookupNone(ts, key);
    assert forall j :: 0 <= j < |ts| ==> SPACE !in ts[j].k;
  }

  /** If the key has no hit, or its first hit ends the block, no tag has that key. */
  lemma NoHitNoKey(ts: seq<Tag>, key: Bytes)
    requires AllValid(ts) && key != [] && SPACE !in key
    ensures var i := Index(Block(ts), key);
            && i != 0
            && (i == -1 || i + |key| == |Block(ts)| ==> Lookup(ts, key) == None)
  {
    LookupNone(ts, key);
    IndexNotZero(ts, key);
    IndexIs(Block(ts), key);
    if HasKey(ts, key) {
      var x :| 0 <= x < |ts| && ts[x].k == key;
      KeyHitBoundsIndex(ts, key, x);
    }
  }

  /** A value ends at the next space, unless it is empty. */
  function ValueEnd(v: Bytes): (e: nat)
    ensures e <= |v|
  {
    var e := IndexByte(v, SPACE);
    if e > 0 then e else |v|
  }

  function CutAtSpace(v: Bytes): Bytes { v[..ValueEnd(v)] }

  /** A first hit between ' ' and '=' is the tag looked for. */
  lemma ExactHit(ts: seq<Tag>, key: Bytes, i: nat)
    requires AllValid(ts) && SPACE !in key
    requires KeyHit(Block(ts), key, i)
    ensures Lookup(ts, key) == Some(CutAtSpace(Block(ts)[i + |key| + 1..]))
  {
    var x := HitIsKey(ts, key, i);
    LookupFirst(ts, x);
    ValidIsPlain(ts[x]);
    ValueEndsAtSpace(ts[x].v, ts[x + 1..]);
  }

  method FindEnd(block: Bytes, lo: nat) returns (hi: nat)
    requires lo <= |block|
    ensures hi == lo + ValueEnd(block[lo..])
  {
    var v := block[lo..];
    var e := IndexByte(v, SPACE);
    hi := if e > 0 then lo + e else lo + |v|;
  }

  lemma ExactRange(block: Bytes, base: nat, left: seq<Tag>, key: Bytes, i: nat, from: nat, lo: nat, hi: nat)
    requires base <= |block| && block[base..] == Block(left) && AllValid(left) && SPACE !in key
    requires i == Index(Block(left), key) && 1 <= i && i + |key| < |Block(left)|
    requires Block(left)[i - 1] == SPACE && Block(left)[i + |key|] == EQUALS
    requires from == i + |key| + 1 && lo == base + from && hi == lo + ValueEnd(block[lo..])
    ensures Spans(block, lo, hi, Lookup(left, key))
  {
    var v := CutAtSpace(Block(left)[from..]);
    FoundAt(block, base, Block(left), from, lo, hi, v);
    assert Lookup(left, key) == Some(v) by {
      IndexIs(Block(left), key);
      ExactHit(left, key, i);
    }
  }

  /** The value found in a suffix of the block, as a range of the whole block. */
  lemma FoundAt(block: Bytes, base: nat, tags: Bytes, from: nat, lo: nat, hi: nat, v: Bytes)
    requires base <= |block| && block[base..] == tags && from <= |tags| && v == CutAtSpace(tags[from..])
    requires lo == base + from && hi == lo + ValueEnd(block[lo..])
    ensures Spans(block, lo, hi, Some(v))
  {
    DropDrop(block, base, from);
    assert block[lo..][..hi - lo] == block[lo..hi];
  }

  /** After any other first hit the first tag is not the one looked for, and the search moves past it. */
  lemma InexactHit(ts: seq<Tag>, key: Bytes)
    requires AllValid(ts) && key != [] && SPACE !in key
    requires var i := Index(Block(ts), key);
             1 <= i && i + |key| < |Block(ts)| && !(Block(ts)[i - 1] == SPACE && Block(ts)[i + |key|] == EQUALS)
    ensures ts != [] && Lookup(ts, key) == Lookup(ts[1..], key) && AllValid(ts[1..]) && Plain(ts[0])
  {
    BlockStart(ts);
    if ts[0].k == key {
      KeyHitBoundsIndex(ts, key, 0);
    }
    ValidIsPlain(ts[0]);
  }

  lemma KeyHitBoundsIndex(ts: seq<Tag>, key: Bytes, x: nat)
    requires AllValid(ts)
    requires key != [] && SPACE !in key && x < |ts| && ts[x].k == key
    ensures var i := Index(Block(ts), key);
            1 <= i && i + |key| < |Block(ts)|
            && (x == 0 ==> i == 1 && Block(ts)[0] == SPACE && Block(ts)[1 + |key|] == EQUALS)
  {
    var p := KeyIsHit(ts, x);
    IndexNotZero(ts, key);
    IndexIs(Block(ts), key);
  }

  /** A block starts with a space, so a space-free needle never hits at 0. */
  lemma IndexNotZero(ts: seq<Tag>, key: Bytes)
    requires key != [] && SPACE !in key
    ensures Index(Block(ts), key) != 0
  {
    BlockStart(ts);
    IndexIs(Block(ts), key);
    assert ts != [] ==> Block(ts)[0] != key[0];
  }

  lemma ValueEndsAtSpace(v: Bytes, ts: seq<Tag>)
    requires SPACE !in v && v != []
    ensures CutAtSpace(v + Block(ts)) == v
  {
    var rest := Block(ts);
    BlockStart(ts);
    if ts == [] {
      assert v + rest == v;
    } else {
      assert (v + rest)[..|v|] == v;
      IndexByteIs(v + rest, SPACE, |v|);
    }
  }

  /** The second space of a block is where its second tag starts. */
  lemma NextTagAt(ts: seq<Tag>)
    requires ts != [] && Plain(ts[0])
    ensures var j := IndexByte(Block(ts)[1..], SPACE);
            (j == -1 <==> |ts| == 1)
            && (j != -1 ==> Block(ts)[j + 1..] == Block(ts[1..]) && j == |TagText(ts[0])|)
  {
    TagTextHasNoSpace(ts[0]);
    BlockStart(ts[1..]);
    SecondSpace(Block(ts), TagText(ts[0]), Block(ts[1..]));
  }

  lemma SecondSpace(b: Bytes, text: Bytes, rest: Bytes)
    requires b == ([SPACE] + text) + rest && SPACE !in text && (rest == [] || rest[0] == SPACE)
    ensures IndexByte(b[1..], SPACE) == if rest == [] then -1 else |text|
    ensures b[|text| + 1..] == rest
  {
    assert b[1..] == text + rest;
    FirstSpace(text, rest);
  }

  /** Where the first space of "text rest" is, if any. */
  lemma FirstSpace(text: Bytes, rest: Bytes)
    requires SPACE !in text && (rest == [] || rest[0] == SPACE)
    ensures IndexByte(text + rest, SPACE) == if rest == [] then -1 else |text|
    ensures (text + rest)[..|text|] == text && (text + rest)[|text|..] == rest
  {
    if rest == [] {
      assert text + rest == text;
    } else {
      assert (text + rest)[..|text|] == text;
      IndexByteIs(text + rest, SPACE, |text|);
    }
  }

  // ---- nextTag -----------------------------------------------------------------------------------------

  /** Peels the first tag off a block. */
  function NextTag(buf: Bytes): (r: (Bytes, Bytes, Bytes))
    requires buf != [] && 1 <= IndexByte(buf, EQUALS)
    requires var j := IndexByte(buf[1..], SPACE); j != -1 ==> IndexByte(buf, EQUALS) <= j
  {
    var i := IndexByte(buf, EQUALS);
    var j := IndexByte(buf[1..], SPACE);
    if j == -1 then (buf[1..i], buf[i + 1..], []) else (buf[1..i], buf[i + 1..j + 1], buf[j + 1..])
  }

  lemma NextTagPeels(ts: seq<Tag>)
    requires ts != [] && Plain(ts[0])
    ensures NextTag.requires(Block(ts))
    ensures NextTag(Block(ts)) == (ts[0].k, ts[0].v, Block(ts[1..]))
  {
    var t, buf, rest := ts[0], Block(ts), Block(ts[1..]);
    FirstEquals(t, rest);
    NextTagAt(ts);
    BlockStart(ts[1..]);
    assert buf == Chunk(t) + rest;
    if |ts| == 1 {
      assert buf == Chunk(t);
    }
  }

  lemma FirstEquals(t: Tag, rest: Bytes)
    requires Plain(t)
    ensures IndexByte(Chunk(t) + rest, EQUALS) == 1 + |t.k|
    ensures (Chunk(t) + rest)[1..1 + |t.k|] == t.k
    ensures (Chunk(t) + rest)[|t.k| + 2..|TagText(t)| + 1] == t.v
  {
    var buf := Chunk(t) + rest;
    assert buf[..1 + |t.k|] == [SPACE] + t.k;
    IndexByteIs(buf, EQUALS, 1 + |t.k|);
  }

  /** Blocks of plain tags spell out exactly one list. */
  lemma {:induction false} BlockInjective(a: seq<Tag>, b: seq<Tag>)
    requires forall i :: 0 <= i < |a| ==> Plain(a[i])
    requires forall i :: 0 <= i < |b| ==> Plain(b[i])
    requires Block(a) == Block(b)
    ensures a == b
  {
    BlockStart(a);
    BlockStart(b);
    if a != [] {
      NextTagPeels(a);
      NextTagPeels(b);
      BlockInjective(a[1..], b[1..]);
      assert a == [a[0]] + a[1..] && b == [b[0]] + b[1..];
    }
  }

  // ---- Point.SetTags -----------------------------------------------------------------------------------

  function Pairs(keyval: seq<Bytes>): (r: seq<Tag>)
    requires |keyval| % 2 == 0
    ensures |r| == |keyval| / 2
  {
    if keyval == [] then [] else [Tag(keyval[0], keyval[1])] + Pairs(keyval[2..])
  }

  predicate KeyIn(ts: seq<Tag>, key: Bytes) {
    ts != [] && (ts[0].k == key || KeyIn(ts[1..], key))
  }

  lemma {:induction false} KeyInIs(ts: seq<Tag>, key: Bytes)
    ensures KeyIn(ts, key) <==> HasKey(ts, key)
  {
    if ts != [] {
      KeyInIs(ts[1..], key);
      HasKeyCons(ts, key);
    }
  }

  /** The tags of ts that news does not replace. */
  function Keep(ts: seq<Tag>, news: seq<Tag>): seq<Tag> {
    if ts == [] then []
    else if KeyIn(news, ts[0].k) then Keep(ts[1..], news)
    else [ts[0]] + Keep(ts[1..], news)
  }

  /** New tags first, then the old ones they do not replace; at most eight in all. */
  function SetTagsResult(ts: seq<Tag>, keyval: seq<Bytes>): TagResult {
    if |keyval| % 2 == 1 then TagFailure(MissingValue)
    else
      var news := Pairs(keyval);
      if !(forall i :: 0 <= i < |news| ==> ValidTag(news[i])) then TagFailure(InvalidTag)
      else if |news + Keep(ts, news)| > MAX_TAGS then TagFailure(TooManyTags)
      else Tagged(news + Keep(ts, news))
  }

  method SetTags(p: Point, keyval: seq<Bytes>, ghost ts: seq<Tag>) returns (err: Option<TagError>)
    requires p.tags == Block(ts) && AllPlain(ts)
    modifies p`tags
    ensures match SetTagsResult(ts, keyval)
            case Tagged(r) => err == None && p.tags == Block(r)
            case TagFailure(e) => err == Some(e) && p.tags == old(p.tags)
  {
    var tags;
    err, tags := NewBlock(p.tags, keyval, ts);
    if err.None? {
      p.tags := tags;
    }
  }

  /** The block that SetTags writes over the old one. */
  method NewBlock(block: Bytes, keyval: seq<Bytes>, ghost ts: seq<Tag>) returns (err: Option<TagError>, tags: Bytes)
    requires block == Block(ts) && AllPlain(ts)
    ensures match SetTagsResult(ts, keyval)
            case Tagged(r) => err == None && tags == Block(r)
            case TagFailure(e) => err == Some(e)
  {
    if |keyval| > 0 && |keyval| % 2 == 1 {
      return Some(MissingValue), [];
    }
    ghost var news := Pairs(keyval);
    var ok, keys, seen;
    ok, tags, keys, seen := NewTags(keyval);
    if !ok {
      return Some(InvalidTag), [];
    }
    tags, seen := AppendKept(block, tags, keys, seen, ts, news);
    BlockConcat(news, Keep(ts, news));
    if |seen| > MAX_TAGS {
      return Some(TooManyTags), tags;
    }
    return None, tags;
  }

  ghost predicate AllPlain(ts: seq<Tag>) {
    forall i :: 0 <= i < |ts| ==> Plain(ts[i])
  }

  lemma BlockSnoc(ts: seq<Tag>, t: Tag)
    ensures Block(ts + [t]) == Block(ts) + [SPACE] + t.k + [EQUALS] + t.v
  {
    BlockConcat(ts, [t]);
    BlockOne(t);
    ChunkIs(t);
    SnocRegroup(Block(ts), t.k, t.v);
  }

  lemma SnocRegroup(a: Bytes, k: Bytes, v: Bytes)
    ensures a + ([SPACE] + k + [EQUALS] + v) == a + [SPACE] + k + [EQUALS] + v
  {
  }

  ghost predicate KeysOf(have: seq<Bytes>, ts: seq<Tag>) {
    |have| == |ts| && forall i :: 0 <= i < |ts| ==> have[i] == ts[i].k
  }

  /** The first loop of SetTags: validates and prints the new tags. */
  method NewTags(keyval: seq<Bytes>) returns (ok: bool, tags: Bytes, keys: seq<Bytes>, seen: seq<Bytes>)
    requires |keyval| % 2 == 0
    ensures ok <==> AllValid(Pairs(keyval))
    ensures ok ==> tags == Block(Pairs(keyval)) && KeysOf(keys, Pairs(keyval)) && |seen| == |keys|
  {
    tags, keys, seen := [], [], [];
    ghost var past, left: seq<Tag> := [], Pairs(keyval);
    var i := 0;
    assert keyval[0..] == keyval;
    while i < |keyval|
      invariant i % 2 == 0 && 0 <= i <= |keyval| && left == Pairs(keyval[i..])
      invariant past + left == Pairs(keyval)
      invariant AllValid(past) && tags == Block(past)
      invariant KeysOf(keys, past) && |seen| == |keys|
    {
      EvenStep(i, |keyval|);
      var k, v := keyval[i], keyval[i + 1];
      HeadTail(left);
      ConcatAssoc(past, [left[0]], left[1..]);
      assert keyval[i..][2..] == keyval[i + 2..];
      if !ValidText(k) || !ValidText(v) {
        assert !ValidTag(Pairs(keyval)[|past|]);
        return false, tags, keys, seen;
      }
      BlockSnoc(past, Tag(k, v));
      tags := tags + [SPACE] + k + [EQUALS] + v;
      keys := keys + [k];
      seen := seen + [k];
      past, left := past + [Tag(k, v)], left[1..];
      i := i + 2;
    }
    assert past == Pairs(keyval);
    ok := true;
  }

  lemma KeepStep(ts: seq<Tag>, news: seq<Tag>)
    requires ts != []
    ensures if HasKey(news, ts[0].k) then Keep(ts, news) == Keep(ts[1..], news)
            else Keep(ts, news) == [ts[0]] + Keep(ts[1..], news)
                 && Block(Keep(ts, news))
                    == [SPACE] + ts[0].k + [EQUALS] + ts[0].v + Block(Keep(ts[1..], news))
  {
    KeyInIs(news, ts[0].k);
    if !HasKey(news, ts[0].k) {
      BlockCons(ts[0], Keep(ts[1..], news));
    }
  }

  lemma Regroup(a: Bytes, k: Bytes, v: Bytes, rest: Bytes)
    ensures (a + [SPACE] + k + [EQUALS] + v) + rest == a + ([SPACE] + k + [EQUALS] + v + rest)
  {
  }

  /** The second loop of SetTags: the old tags, except those whose key is among the new keys. */
  method AppendKept(block: Bytes, tags0: Bytes, keys: seq<Bytes>, seen0: seq<Bytes>, ghost ts: seq<Tag>,
                    ghost news: seq<Tag>)
    returns (tags: Bytes, seen: seq<Bytes>)
    requires block == Block(ts) && AllPlain(ts)
    requires KeysOf(keys, news)
    ensures tags == tags0 + Block(Keep(ts, news))
    ensures |seen| == |seen0| + |Keep(ts, news)|
  {
    tags, seen := tags0, seen0;
    var buf := block;
    ghost var left := ts;
    while |buf| > 0
      invariant buf == Block(left) && AllPlain(left)
      invariant tags + Block(Keep(left, news)) == tags0 + Block(Keep(ts, news))
      invariant |seen| + |Keep(left, news)| == |seen0| + |Keep(ts, news)|
      decreases |left|
    {
      BlockStart(left);
      NextTagPeels(left);
      KeepStep(left, news);
      var (k, v, rest) := NextTag(buf);
      buf := rest;
      ghost var kept := Block(Keep(left[1..], news));
      left := left[1..];
      if k in keys {
        assert HasKey(news, k);
        continue;
      }
      assert !HasKey(news, k);
      Regroup(tags, k, v, kept);
      tags := tags + [SPACE] + k + [EQUALS] + v;
      seen := seen + [k];
    }
    BlockStart(left);
  }

  // ---- What SetTags means ------------------------------------------------------------------------------

  lemma {:induction false} LookupConcat(a: seq<Tag>, b: seq<Tag>, key: Bytes)
    ensures Lookup(a + b, key) == if Lookup(a, key).Some? then Lookup(a, key) else Lookup(b, key)
  {
    if a == [] {
      assert a + b == b;
    } else {
      assert (a + b)[1..] == a[1..] + b;
      LookupConcat(a[1..], b, key);
    }
  }

  lemma {:induction false} LookupKeep(ts: seq<Tag>, news: seq<Tag>, key: Bytes)
    ensures Lookup(Keep(ts, news), key) == if HasKey(news, key) then None else Lookup(ts, key)
  {
    if ts != [] {
      KeyInIs(news, ts[0].k);
      LookupKeep(ts[1..], news, key);
    }
  }

  lemma {:induction false} LookupIsMap(ts: seq<Tag>, key: Bytes)
    ensures Lookup(ts, key) == if key in ToMap(ts) then Some(ToMap(ts)[key]) else None
  {
    if ts != [] {
      LookupIsMap(ts[1..], key);
    }
  }

  /** Two lists that answer every lookup alike are the same map. */
  lemma SameMap(ts: seq<Tag>, m: map<Bytes, Bytes>)
    requires forall key :: Lookup(ts, key) == if key in m then Some(m[key]) else None
    ensures ToMap(ts) == m
  {
    forall key
      ensures key in ToMap(ts) <==> key in m
      ensures key in m ==> ToMap(ts)[key] == m[key]
    {
      LookupIsMap(ts, key);
      assert Lookup(ts, key) == if key in m then Some(m[key]) else None;
    }
  }

  lemma {:induction false} KeepKeys(ts: seq<Tag>, news: seq<Tag>)
    ensures forall i :: 0 <= i < |Keep(ts, news)| ==> Keep(ts, news)[i] in ts && !HasKey(news, Keep(ts, news)[i].k)
  {
    if ts != [] {
      KeepKeys(ts[1..], news);
      KeyInIs(news, ts[0].k);
    }
  }

  lemma {:induction false} KeepDistinct(ts: seq<Tag>, news: seq<Tag>)
    requires Distinct(ts)
    ensures Distinct(Keep(ts, news))
  {
    if ts != [] {
      KeepDistinct(ts[1..], news);
      KeepKeys(ts[1..], news);
      var kept := Keep(ts[1..], news);
      forall j | 0 <= j < |kept| ensures kept[j].k != ts[0].k {
        assert kept[j] in ts[1..];
      }
    }
  }

  lemma KeepIsWellFormed(ts: seq<Tag>, news: seq<Tag>)
    requires WellFormed(ts)
    ensures WellFormed(Keep(ts, news))
  {
    KeepKeys(ts, news);
    KeepDistinct(ts, news);
  }

  lemma {:induction false} MapSize(ts: seq<Tag>)
    requires Distinct(ts)
    ensures |ToMap(ts)| == |ts|
  {
    if ts != [] {
      MapSize(ts[1..]);
      LookupNone(ts[1..], ts[0].k);
      LookupIsMap(ts[1..], ts[0].k);
    }
  }

  /** New tags in front of the old ones they do not replace are the override of the old map, whichever keys repeat. */
  lemma OverrideIsMap(ts: seq<Tag>, news: seq<Tag>)
    ensures ToMap(news + Keep(ts, news)) == ToMap(ts) + ToMap(news)
  {
    var r := news + Keep(ts, news);
    forall key
      ensures var m := ToMap(ts) + ToMap(news);
              Lookup(r, key) == if key in m then Some(m[key]) else None
    {
      LookupConcat(news, Keep(ts, news), key);
      LookupKeep(ts, news, key);
      LookupNone(news, key);
      LookupIsMap(news, key);
      LookupIsMap(ts, key);
    }
    SameMap(r, ToMap(ts) + ToMap(news));
  }

  /**
   SetTags overrides the map of tags: the new keys get the new values, every other key keeps its own. The
   block stays well formed. It succeeds exactly when the new tags are valid and the override fits eight tags.
   */
  lemma SetTagsOverrides(ts: seq<Tag>, keyval: seq<Bytes>)
    requires WellFormed(ts) && |keyval| % 2 == 0 && Distinct(Pairs(keyval))
    ensures var r := SetTagsResult(ts, keyval);
            && (r.Tagged? <==> AllValid(Pairs(keyval)) && |ToMap(ts) + ToMap(Pairs(keyval))| <= MAX_TAGS)
            && (r.Tagged? ==> WellFormed(r.tags) && ToMap(r.tags) == ToMap(ts) + ToMap(Pairs(keyval)))
  {
    var news := Pairs(keyval);
    var r := news + Keep(ts, news);
    KeepIsWellFormed(ts, news);
    KeepKeys(ts, news);
    if AllValid(news) {
      assert forall i :: 0 <= i < |news| ==> HasKey(news, news[i].k);
      OverrideIsMap(ts, news);
      assert WellFormed(r);
      MapSize(r);
    }
  }

  /** Whatever SetTags accepts consists of valid tags, if the old tags do. */
  lemma ResultIsValid(ts: seq<Tag>, args: seq<Bytes>)
    requires AllValid(ts) && SetTagsResult(ts, args).Tagged?
    ensures AllValid(SetTagsResult(ts, args).tags)
  {
    KeepKeys(ts, Pairs(args));
  }

  /** Repeated keys among the arguments leave a block that is not well formed. */
  lemma SetTagsKeepsDuplicates(ts: seq<Tag>, keyval: seq<Bytes>)
    requires |keyval| % 2 == 0 && !Distinct(Pairs(keyval))
    ensures SetTagsResult(ts, keyval).Tagged? ==> !Distinct(SetTagsResult(ts, keyval).tags)
  {
    var news := Pairs(keyval);
    var i, j :| 0 <= i < j < |news| && news[i].k == news[j].k;
    if SetTagsResult(ts, keyval).Tagged? {
      assert SetTagsResult(ts, keyval).tags[i].k == SetTagsResult(ts, keyval).tags[j].k;
    }
  }

  /** When SetTags accepts, the block stays well formed exactly if the new keys are distinct. */
  lemma SetTagsWellFormedIff(ts: seq<Tag>, keyval: seq<Bytes>)
    requires WellFormed(ts) && SetTagsResult(ts, keyval).Tagged?
    ensures WellFormed(SetTagsResult(ts, keyval).tags) <==> Distinct(Pairs(keyval))
  {
    if Distinct(Pairs(keyval)) {
      SetTagsOverrides(ts, keyval);
    } else {
      SetTagsKeepsDuplicates(ts, keyval);
    }
  }

  /** How many of the first n old tags are kept. */
  function KeptBefore(ts: seq<Tag>, news: seq<Tag>, n: nat): nat
    requires n <= |ts|
  {
    if n == 0 then 0 else KeptBefore(ts, news, n - 1) + if KeyIn(news, ts[n - 1].k) then 0 else 1
  }

  lemma {:induction false} KeptBeforeTail(ts: seq<Tag>, news: seq<Tag>, n: nat)
    requires 0 < n <= |ts|
    ensures KeptBefore(ts, news, n) == KeptBefore(ts[1..], news, n - 1) + if KeyIn(news, ts[0].k) then 0 else 1
  {
    if n > 1 {
      KeptBeforeTail(ts, news, n - 1);
      assert ts[1..][n - 2] == ts[n - 1];
    }
  }

  lemma {:induction false} KeepAt(ts: seq<Tag>, news: seq<Tag>, i: nat)
    requires i < |ts| && !KeyIn(news, ts[i].k)
    ensures KeptBefore(ts, news, i) < |Keep(ts, news)| && Keep(ts, news)[KeptBefore(ts, news, i)] == ts[i]
  {
    if i > 0 {
      KeepAt(ts[1..], news, i - 1);
      KeptBeforeTail(ts, news, i);
    }
  }

  lemma {:induction false} KeepLength(ts: seq<Tag>, news: seq<Tag>)
    ensures |Keep(ts, news)| == KeptBefore(ts, news, |ts|)
  {
    if ts != [] {
      KeepLength(ts[1..], news);
      KeptBeforeTail(ts, news, |ts|);
    }
  }

  /** In the block that SetTags writes the new tags come first, as given, and then the old ones, in their old order. */
  lemma SetTagsKeepsOrder(ts: seq<Tag>, keyval: seq<Bytes>)
    requires SetTagsResult(ts, keyval).Tagged?
    ensures var news, r := Pairs(keyval), SetTagsResult(ts, keyval).tags;
            && |r| == |news| + KeptBefore(ts, news, |ts|) && r[..|news|] == news
            && forall i :: 0 <= i < |ts| && !HasKey(news, ts[i].k) ==>
                 var at := |news| + KeptBefore(ts, news, i); at < |r| && r[at] == ts[i]
  {
    var news := Pairs(keyval);
    KeepLength(ts, news);
    forall i | 0 <= i < |ts| && !HasKey(news, ts[i].k)
      ensures var at := |news| + KeptBefore(ts, news, i);
              at < |SetTagsResult(ts, keyval).tags| && SetTagsResult(ts, keyval).tags[at] == ts[i]
    {
      KeptStands(ts, news, i);
    }
  }

  lemma KeptStands(ts: seq<Tag>, news: seq<Tag>, i: nat)
    requires i < |ts| && !HasKey(news, ts[i].k)
    ensures var r, at := news + Keep(ts, news), |news| + KeptBefore(ts, news, i); at < |r| && r[at] == ts[i]
  {
    KeyInIs(news, ts[i].k);
    KeepAt(ts, news, i);
  }

  const LETTER_X: Bytes := [120]
  const LETTER_M: Bytes := [109]

  /** Repeated keys do get through: setting x=x and x=m on a point without tags is accepted. */
  lemma RepeatedKeysAreAccepted()
    ensures var tags := [Tag(LETTER_X, LETTER_X), Tag(LETTER_X, LETTER_M)];
            SetTagsResult([], [LETTER_X, LETTER_X, LETTER_X, LETTER_M]) == Tagged(tags) && !WellFormed(tags)
  {
    var keyval := [LETTER_X, LETTER_X, LETTER_X, LETTER_M];
    var tags := [Tag(LETTER_X, LETTER_X), Tag(LETTER_X, LETTER_M)];
    assert keyval[2..] == [LETTER_X, LETTER_M] && keyval[2..][2..] == [];
    assert Pairs(keyval[2..]) == [Tag(LETTER_X, LETTER_M)];
    assert Pairs(keyval) == tags;
    assert tags[0].k == tags[1].k;
  }
}
