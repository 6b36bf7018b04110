/** Decimal text of 64-bit integers: the digit loops of the printer and of the parser. */
module Decimal {
  import opened Bytes
  import opened Collections
  import opened Points

  predicate IsDigit(c: byte) { 48 <= c <= 57 }

  predicate AllDigits(b: Bytes) { forall i :: 0 <= i < |b| ==> IsDigit(b[i]) }

  /** The number that a digit string denotes, without any bound. */
  function Dec(b: Bytes): nat
    requires AllDigits(b)
  {
    if b == [] then 0 else Dec(b[..|b| - 1]) * 10 + (b[|b| - 1] as int - 48)
  }

  function Digits(n: nat): (b: Bytes)
    ensures b != [] && AllDigits(b)
  {
    if n < 10 then [(48 + n) as byte] else Digits(n / 10) + [(48 + n % 10) as byte]
  }

  lemma {:induction false} DecOfDigits(n: nat)
    ensures Dec(Digits(n)) == n
  {
    var b := Digits(n);
    if n < 10 {
      assert b[..0] == [];
    } else {
      assert b[..|b| - 1] == Digits(n / 10);
      DecOfDigits(n / 10);
    }
  }

  /** Printing drops leading zeros, so it never needs more digits than were read. */
  lemma {:induction false} DigitsOfDec(b: Bytes)
    requires AllDigits(b) && b != []
    ensures |Digits(Dec(b))| <= |b|
  {
    var front := b[..|b| - 1];
    if Dec(b) >= 10 {
      assert Dec(b) / 10 == Dec(front);
      assert front != [];
      DigitsOfDec(front);
    }
  }

  lemma {:induction false} DigitsMonotone(m: nat, n: nat)
    requires m <= n
    ensures |Digits(m)| <= |Digits(n)|
  {
    if m >= 10 {
      DigitsMonotone(m / 10, n / 10);
    }
  }

  function Pow10(k: nat): (p: nat)
    ensures p > 0
  {
    if k == 0 then 1 else 10 * Pow10(k - 1)
  }

  lemma {:induction false} DigitsLength(n: nat, k: nat)
    requires n < Pow10(k) && k > 0
    ensures |Digits(n)| <= k
  {
    if n >= 10 {
      DigitsLength(n / 10, k - 1);
    }
  }

  lemma {:induction false} DecBound(b: Bytes)
    requires AllDigits(b)
    ensures Dec(b) < Pow10(|b|)
  {
    if b != [] {
      DecBound(b[..|b| - 1]);
    }
  }

  // ---- Wrap-around -------------------------------------------------------------------------------------

  lemma WrapCongruent(x: int, y: int, k: int)
    requires x - y == k * TWO_64
    ensures Wrap64(x) == Wrap64(y)
  {
    assert (x - MIN_INT64) == (y - MIN_INT64) + k * TWO_64;
    ModShift(y - MIN_INT64, k);
  }

  lemma ModShift(a: int, k: int)
    ensures (a + k * TWO_64) % TWO_64 == a % TWO_64
  {
    var q, r := a / TWO_64, a % TWO_64;
    assert a + k * TWO_64 == (q + k) * TWO_64 + r;
    QuotientIs(a + k * TWO_64, q + k, r);
  }

  lemma QuotientIs(n: int, q: int, r: int)
    requires n == q * TWO_64 + r && 0 <= r < TWO_64
    ensures n % TWO_64 == r
  {
  }

  lemma WrapIsShift(n: int) returns (k: int)
    ensures Wrap64(n) == n + k * TWO_64
  {
    k := -((n - MIN_INT64) / TWO_64);
  }

  /** One round of a digit loop on 64-bit registers. */
  lemma WrapDigit(a: int, d: int)
    ensures Wrap64(Wrap64(Wrap64(a) * 10) + d) == Wrap64(a * 10 + d)
  {
    var k := WrapIsShift(a);
    var m := WrapIsShift(Wrap64(a) * 10);
    WrapCongruent(Wrap64(Wrap64(a) * 10) + d, a * 10 + d, 10 * k + m);
  }

  lemma WrapNegation(a: int)
    ensures Wrap64(-Wrap64(a)) == Wrap64(-a)
  {
    var k := WrapIsShift(a);
    WrapCongruent(-Wrap64(a), -a, -k);
  }

  // ---- appendInt ---------------------------------------------------------------------------------------

  /** What appendInt prints. Negating the least int64 wraps, and its low byte is zero. */
  function FormatInt(n: int): Bytes
    requires IsInt64(n)
  {
    if n == MIN_INT64 then [MINUS, ZERO]
    else if n < 0 then [MINUS] + Digits(-n)
    else Digits(n)
  }

  function Reverse(b: Bytes): (r: Bytes)
    ensures |r| == |b| && forall i :: 0 <= i < |b| ==> r[i] == b[|b| - 1 - i]
  {
    if b == [] then [] else Reverse(b[1..]) + [b[0]]
  }

  lemma ReverseSnoc(b: Bytes, c: byte)
    ensures Reverse(b + [c]) == [c] + Reverse(b)
  {
  }

  method AppendInt(buf: Bytes, num: int) returns (r: Bytes)
    requires IsInt64(num)
    ensures r == buf + FormatInt(num)
  {
    var tmp: Bytes := [];
    var neg, n := false, num;
    if n < 0 {
      neg := true;
      n := Wrap64(n * -1);
    }
    PrintStart(num);
    while n >= 10
      invariant Printing(num, n, tmp)
      decreases n
    {
      PrintDigit(num, n, tmp);
      var rem := n % 10;
      tmp := tmp + [(48 + rem) as byte];
      n := n / 10;
    }
    var last := ((48 + n % 256) % 256) as byte;
    PrintLast(num, n, tmp);
    tmp := tmp + [last];
    r := buf;
    if neg {
      r := r + [MINUS];
    }
    r := AppendReversed(r, tmp);
    SignedText(buf, num);
  }

  function Magnitude(n: int): Bytes
    requires IsInt64(n)
  {
    if n == MIN_INT64 then [ZERO] else Digits(if n < 0 then -n else n)
  }

  /** The reversing loop: tmp holds the last digits of the number, n the rest of it. */
  ghost predicate Printing(num: int, n: int, tmp: Bytes)
    requires IsInt64(num)
  {
    && IsInt64(n)
    && if num == MIN_INT64 then n == MIN_INT64 && tmp == []
       else n >= 0 && Digits(n) + Reverse(tmp) == Magnitude(num)
  }

  lemma PrintStart(num: int)
    requires IsInt64(num)
    ensures Printing(num, if num < 0 then Wrap64(num * -1) else num, [])
  {
    assert Magnitude(num) + [] == Magnitude(num);
  }

  lemma PrintDigit(num: int, n: int, tmp: Bytes)
    requires IsInt64(num) && Printing(num, n, tmp) && n >= 10
    ensures Printing(num, n / 10, tmp + [(48 + n % 10) as byte])
  {
    ReverseSnoc(tmp, (48 + n % 10) as byte);
    ConcatAssoc(Digits(n / 10), [(48 + n % 10) as byte], Reverse(tmp));
  }

  /** The last digit; the least number has none, and leaves a zero. */
  lemma PrintLast(num: int, n: int, tmp: Bytes)
    requires IsInt64(num) && Printing(num, n, tmp) && n < 10
    ensures Reverse(tmp + [((48 + n % 256) % 256) as byte]) == Magnitude(num)
  {
    ReverseSnoc(tmp, ((48 + n % 256) % 256) as byte);
    assert Reverse([]) == [];
  }

  lemma SignedText(buf: Bytes, n: int)
    requires IsInt64(n)
    ensures (if n < 0 then buf + [MINUS] else buf) + Magnitude(n) == buf + FormatInt(n)
  {
    if n < 0 {
      ConcatAssoc(buf, [MINUS], Magnitude(n));
    }
  }

  method AppendReversed(buf: Bytes, tmp: Bytes) returns (r: Bytes)
    ensures r == buf + Reverse(tmp)
  {
    r := buf;
    var i := |tmp| - 1;
    while i >= 0
      invariant -1 <= i < |tmp|
      invariant r == buf + Reverse(tmp)[..|tmp| - 1 - i]
    {
      assert Reverse(tmp)[..|tmp| - i] == Reverse(tmp)[..|tmp| - 1 - i] + [tmp[i]];
      r := r + [tmp[i]];
      i := i - 1;
    }
    assert Reverse(tmp)[..|tmp|] == Reverse(tmp);
  }

  // ---- parseInt ----------------------------------------------------------------------------------------

  /** An optional minus sign and any number of digits, wrapping at 64 bits; "-" alone is zero. */
  function ParseInt(b: Bytes): Option<int> {
    if b == [] then None
    else
      var body := if b[0] == MINUS then b[1..] else b;
      if !AllDigits(body) then None
      else Some(Wrap64(if b[0] == MINUS then 0 - Dec(body) else Dec(body)))
  }

  method ParseIntLoop(b0: Bytes) returns (r: Option<int>)
    ensures r == ParseInt(b0)
  {
    var neg, b := false, b0;
    if |b| == 0 {
      return None;
    }
    if b[0] == MINUS {
      neg := true;
      b := b[1..];
    }
    var ok, n := ReadDigits(b);
    if !ok {
      return None;
    }
    if neg {
      WrapNegation(Dec(b));
      n := Wrap64(n * -1);
    }
    return Some(n);
  }

  /** The digit loop that parseInt and parseTime share. */
  method ReadDigits(b: Bytes) returns (ok: bool, n: int)
    ensures ok <==> AllDigits(b)
    ensures ok ==> n == Wrap64(Dec(b))
  {
    n := 0;
    for i := 0 to |b|
      invariant AllDigits(b[..i])
      invariant n == Wrap64(Dec(b[..i]))
    {
      var c := b[i];
      if !IsDigit(c) {
        return false, 0;
      }
      assert b[..i + 1][..i] == b[..i];
      WrapDigit(Dec(b[..i]), c as int - 48);
      n := Wrap64(n * 10);
      n := Wrap64(n + (c as int - 48));
    }
    assert b[..|b|] == b;
    ok := true;
  }

  lemma FormatIntShape(n: int)
    requires IsInt64(n)
    ensures FormatInt(n) != []
    ensures forall i :: 0 <= i < |FormatInt(n)| ==> IsDigit(FormatInt(n)[i]) || FormatInt(n)[i] == MINUS
    ensures n < 0 <==> FormatInt(n)[0] == MINUS
  {
  }

  /** Parsing undoes printing for every int64 but the least, which reads back as zero. */
  lemma IntRoundTrip(n: int)
    requires IsInt64(n)
    ensures ParseInt(FormatInt(n)) == Some(if n == MIN_INT64 then 0 else n)
  {
    if n == MIN_INT64 {
      assert FormatInt(n)[1..] == [ZERO] == Digits(0);
      DecOfDigits(0);
    } else if n < 0 {
      assert FormatInt(n)[1..] == Digits(-n);
      DecOfDigits(-n);
    } else {
      DecOfDigits(n);
    }
  }

  /** The literal of an integer lies within what appendInt can print again. */
  predicate IntFits(b: Bytes) {
    && ParseInt(b).Some?
    && var body := if b[0] == MINUS then b[1..] else b;
       Dec(body) <= MAX_INT64
  }

  lemma ReprintIntNotLonger(b: Bytes)
    requires IntFits(b)
    ensures ParseInt(b).value != MIN_INT64
    ensures |FormatInt(ParseInt(b).value)| <= |b|
  {
    var body := if b[0] == MINUS then b[1..] else b;
    if body != [] {
      DigitsOfDec(body);
    }
  }
}
