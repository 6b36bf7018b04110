/** The data point, and Go's 64-bit integers. */
module Points {
  import opened Bytes

  const MIN_INT64: int := -0x8000_0000_0000_0000
  const MAX_INT64: int := 0x7FFF_FFFF_FFFF_FFFF
  const TWO_64: int := 0x1_0000_0000_0000_0000
  const SECOND: int := 1_000_000_000
  const MINUTE: int := 60 * SECOND
  const HOUR: int := 60 * MINUTE

  predicate IsInt64(n: int) { MIN_INT64 <= n <= MAX_INT64 }

  /** Go's int64 arithmetic keeps the low 64 bits. */
  function Wrap64(n: int): (w: int)
    ensures IsInt64(w)
    ensures (w - n) % TWO_64 == 0
    ensures IsInt64(n) ==> w == n
  {
    (n - MIN_INT64) % TWO_64 + MIN_INT64
  }

  /** Go's division truncates toward zero. */
  function QuoTrunc(n: int, d: int): int
    requires d > 0
  {
    if n >= 0 then n / d else -((-n) / d)
  }

  /** An int64 or a finite float32; equality also compares the type, as Go's interface equality does. */
  datatype Value = Int(n: int) | Float(x: real) {
    function Num(): real {
      match this
      case Int(n) => n as real
      case Float(x) => x
    }
  }

  /** What a Point holds: nanoseconds since the epoch, a value, and the series it belongs to. */
  datatype Datum = Datum(time: int, value: Value, metric: Bytes, tags: Bytes) {
    /** The series a point belongs to is its metric followed by its tag block. */
    function Series(): Bytes { metric + tags }
  }

  /** A point at a wall-clock time: when it is decoded, or put. */
  datatype Arrival = Arrival(d: Datum, now: int)

  /** The mutable object that the program passes around. */
  class Point {
    var time: int
    var isFloat: bool
    var valueInt: int
    var valueFloat: real
    var metric: Bytes
    var tags: Bytes

    function Value(): Value
      reads `isFloat, `valueInt, `valueFloat
    {
      if isFloat then Float(valueFloat) else Int(valueInt)
    }

    function Contents(): Datum
      reads this
    {
      Datum(time, Value(), metric, tags)
    }

    constructor (d: Datum)
      ensures Contents() == d
    {
      time := d.time;
      isFloat := d.value.Float?;
      valueInt := if d.value.Int? then d.value.n else 0;
      valueFloat := if d.value.Float? then d.value.x else 0.0;
      metric := d.metric;
      tags := d.tags;
    }

    method SetValueValid(v: Value)
      modifies this`isFloat, this`valueInt, this`valueFloat
      ensures Value() == v
    {
      if v.Float? {
        isFloat := true;
        valueFloat := v.x;
        return;
      }
      isFloat := false;
      valueInt := v.n;
    }
  }
}
