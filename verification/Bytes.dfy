/** Byte strings, and the few searches of Go's package bytes that the program relies on. */
module Bytes {
  newtype byte = x: int | 0 <= x < 256

  type Bytes = seq<byte>

  const TAB: byte := 9
  const NEWLINE: byte := 10
  const CARRIAGE_RETURN: byte := 13
  const SPACE: byte := 32
  const MINUS: byte := 45
  const DOT: byte := 46
  const ZERO: byte := 48
  const EQUALS: byte := 61

  datatype Option<+T> = None | Some(value: T)

  /** Position of the first c in s, or -1. */
  function IndexByte(s: Bytes, c: byte): (i: int)
    ensures -1 <= i < |s|
    ensures i == -1 <==> c !in s
    ensures 0 <= i ==> s[i] == c && c !in s[..i]
  {
    IndexByteFrom(s, c, 0)
  }

  function IndexByteFrom(s: Bytes, c: byte, from: nat): (i: int)
    requires from <= |s| && c !in s[..from]
    ensures -1 <= i < |s|
    ensures i == -1 <==> c !in s
    ensures 0 <= i ==> s[i] == c && c !in s[..i]
    decreases |s| - from
  {
    if from == |s| then
      assert s[..from] == s;
      -1
    else if s[from] == c then from
    else
      assert s[..from + 1] == s[..from] + [s[from]];
      IndexByteFrom(s, c, from + 1)
  }

  predicate HitAt(s: Bytes, needle: Bytes, i: int) {
    0 <= i && i + |needle| <= |s| && s[i..i + |needle|] == needle
  }

  /** Position of the first occurrence of needle in s, or -1. */
  function Index(s: Bytes, needle: Bytes): (i: int)
    ensures i == -1 || 0 <= i <= |s| - |needle|
  {
    IndexFrom(s, needle, 0)
  }

  lemma IndexIs(s: Bytes, needle: Bytes)
    ensures var i := Index(s, needle);
            && (i == -1 ==> forall j :: !HitAt(s, needle, j))
            && (0 <= i ==> HitAt(s, needle, i) && forall j :: 0 <= j < i ==> !HitAt(s, needle, j))
  {
  }

  function IndexFrom(s: Bytes, needle: Bytes, from: nat): (i: int)
    requires from <= |s|
    ensures i == -1 || from <= i <= |s|
    ensures i == -1 ==> forall j :: from <= j ==> !HitAt(s, needle, j)
    ensures 0 <= i ==> HitAt(s, needle, i) && forall j :: from <= j < i ==> !HitAt(s, needle, j)
    decreases |s| - from
  {
    if HitAt(s, needle, from) then from
    else if from == |s| then -1
    else IndexFrom(s, needle, from + 1)
  }

  /** The first occurrence is where everything before it differs. */
  lemma IndexByteIs(s: Bytes, c: byte, i: nat)
    requires i < |s| && s[i] == c && c !in s[..i]
    ensures IndexByte(s, c) == i
  {
    assert c in s;
  }
}
