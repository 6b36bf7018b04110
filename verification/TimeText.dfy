/** What the time of a line denotes: seconds, or thirteen digits of milliseconds. */
module TimeText {
  import opened Bytes
  import opened Points
  import opened Decimal
  import opened Codec

  lemma DecFront(b: Bytes)
    requires AllDigits(b) && b != []
    ensures AllDigits(b[..|b| - 1]) && 0 <= Dec(b) - 10 * Dec(b[..|b| - 1]) <= 9
  {
  }

  /** Leaving out the last digit divides by ten. */
  lemma DecTake(b: Bytes, n: nat)
    requires AllDigits(b) && n < |b|
    ensures AllDigits(b[..n]) && AllDigits(b[..n + 1])
    ensures 0 <= Dec(b[..n + 1]) - 10 * Dec(b[..n]) <= 9
  {
    DecFront(b[..n + 1]);
    assert b[..n + 1][..n] == b[..n];
  }

  /** Milliseconds are a thousand times the seconds that their first ten digits say, and less than a thousand more. */
  lemma DecOfMillis(b: Bytes)
    requires AllDigits(b) && |b| == 13
    ensures AllDigits(b[..10]) && 0 <= Dec(b) - 1000 * Dec(b[..10]) <= 999
  {
    DecTake(b, 10);
    DecTake(b, 11);
    DecTake(b, 12);
    assert b[..13] == b;
  }

  lemma WholeSeconds(n: nat, rest: nat)
    requires n * 1_000_000_000 + rest <= MAX_INT64 && rest < 1_000_000_000
    ensures TruncateTime(Wrap64(n * 1_000_000_000 + rest)) == n * 1_000_000_000
  {
    var t := n * 1_000_000_000 + rest;
    assert t % SECOND == rest;
  }

  lemma SecondsAreMeant(b: Bytes)
    requires AllDigits(b) && 1 <= |b| <= 10 && Dec(b) <= 9_223_372_036
    ensures ParseTime(b) == Some(Dec(b) * 1_000_000_000)
  {
    WholeSeconds(Dec(b), 0);
  }

  /**
   A time is accepted if and only if it is one to ten digits or thirteen. Up to ten digits are seconds since the epoch;
   thirteen are milliseconds, and denote the second that their first ten digits do, as long as 64 bits hold it.
   */
  lemma TimeMeans(b: Bytes)
    ensures ParseTime(b).Some? <==> AllDigits(b) && (1 <= |b| <= 10 || |b| == 13)
    ensures AllDigits(b) && 1 <= |b| <= 10 && Dec(b) <= 9_223_372_036 ==> ParseTime(b) == Some(Dec(b) * 1_000_000_000)
    ensures AllDigits(b) && |b| == 13 && Dec(b) <= 9_223_372_036_854 ==>
              && AllDigits(b[..10]) && ParseTime(b) == ParseTime(b[..10]) == Some(Dec(b[..10]) * 1_000_000_000)
              && 0 <= Dec(b) - 1000 * Dec(b[..10]) <= 999
  {
    if AllDigits(b) && 1 <= |b| <= 10 && Dec(b) <= 9_223_372_036 {
      SecondsAreMeant(b);
    }
    if AllDigits(b) && |b| == 13 && Dec(b) <= 9_223_372_036_854 {
      DecOfMillis(b);
      SecondsAreMeant(b[..10]);
      WholeSeconds(Dec(b[..10]), (Dec(b) - 1000 * Dec(b[..10])) * 1_000_000);
    }
  }
}
