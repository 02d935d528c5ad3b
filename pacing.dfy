/**
 * The integer arithmetic of the capture engine: C#'s truncating division and unchecked
 * 32-bit subtraction, the per-iteration sleep rule of the capture loop, and the size of
 * the resize target.
 */
module Pacing {
  import opened Wrappers

  const INT32_MIN: int := -0x8000_0000
  const INT32_MAX: int := 0x7FFF_FFFF

  /** A C# `int`. */
  type Int32 = x: int | INT32_MIN <= x <= INT32_MAX

  /** Fixed scheduling overhead subtracted after a produced frame, in milliseconds. */
  const SCHEDULING_OFFSET_MS: int := 7

  /** Milliseconds in a second: the numerator of the frame budget. */
  const MS_PER_SECOND: int := 1000

  /** The value C# keeps after unchecked int arithmetic or an `(int)` cast: the low 32 bits, signed. */
  function Wrap32(x: int): (r: Int32)
    ensures (r - x) % 0x1_0000_0000 == 0
    ensures INT32_MIN <= x <= INT32_MAX ==> r == x
  {
    (x - INT32_MIN) % 0x1_0000_0000 + INT32_MIN
  }

  function Abs(x: int): nat { if x < 0 then -x else x }

  lemma DivBounds(x: nat, y: nat)
    requires y >= 1
    ensures x / y <= x
    ensures x < y ==> x / y == 0
  {
    var q := x / y;
    assert q * y + x % y == x;
    assert q * y >= q by { if q > 0 { assert q * y == q + q * (y - 1); } }
  }

  /** C#'s integer division: the quotient is truncated toward zero. */
  function TruncDiv(a: int, b: int): (q: int)
    requires b != 0
    ensures Abs(q) <= Abs(a)
    ensures a >= 0 && b > 0 ==> q == a / b
    ensures a >= 0 && b < 0 ==> q == -(a / -b)
    ensures a < 0 && b > 0 ==> q == -(-a / b)
    ensures a < 0 && b < 0 ==> q == -a / -b
    ensures Abs(a) < Abs(b) ==> q == 0
  {
    var n: nat, d: nat := Abs(a), Abs(b);
    DivBounds(n, d);
    var m := n / d;
    if (a < 0) == (b < 0) then m else -m
  }

  /** `1000 / targetFrameRate`: the frame budget the loop starts every iteration with. */
  function Budget(targetFrameRate: Int32): (b: int)
    requires targetFrameRate != 0
    ensures -MS_PER_SECOND <= b <= MS_PER_SECOND
    ensures targetFrameRate > 0 ==> b == MS_PER_SECOND / targetFrameRate
    ensures targetFrameRate > MS_PER_SECOND ==> b == 0
  {
    TruncDiv(MS_PER_SECOND, targetFrameRate)
  }

  /** Why one iteration of the capture loop cannot compute its sleep. */
  datatype LoopFault = DivideByZero

  /**
   * The sleep the capture loop passes to `Thread.Sleep` after one iteration: the budget, and
   * when a frame was produced the budget less the processing time (cast to `int`) and the
   * fixed offset, clamped below at 1. A zero frame rate throws while computing the budget.
   */
  function SleepMs(targetFrameRate: Int32, produced: bool, procTime: nat): (r: Result<int, LoopFault>)
    ensures r.Failure? <==> targetFrameRate == 0
    ensures r.Success? && produced ==> r.value >= 1
    ensures r.Success? && !produced ==> r.value == Budget(targetFrameRate)
  {
    if targetFrameRate == 0 then Failure(DivideByZero)
    else
      var sleep := Budget(targetFrameRate);
      if !produced then Success(sleep)
      else
        var sleep := Wrap32(sleep - Wrap32(procTime));
        var sleep := Wrap32(sleep - SCHEDULING_OFFSET_MS);
        Success(Max(1, sleep))
  }

  /** Above 1000 frames per second a pass that produced nothing sleeps 0 ms: the clamp at 1 applies only to produced frames. */
  lemma IdleSleepAtHighRate()
    ensures SleepMs(2000, false, 0) == Success(0)
  {
  }

  /**
   * What `Thread.Sleep(ms)` does with the loop's sleep: it waits for a non-negative time,
   * waits forever for -1 (`Timeout.Infinite`) and throws `ArgumentOutOfRangeException` below that.
   */
  datatype SleepEffect = Waits | WaitsForever | Throws

  /** What `Thread.Sleep(ms)` does: it waits for 0 or more, waits forever for -1 and throws below -1. */
  function ThreadSleep(ms: int): (e: SleepEffect)
    ensures e == Waits <==> ms >= 0
    ensures e == WaitsForever <==> ms == -1
    ensures e == Throws <==> ms < -1
  {
    if ms >= 0 then Waits else if ms == -1 then WaitsForever else Throws
  }

  /**
   * A negative frame rate gives a negative budget: -1 from -1000 to -501, below -1 from -500
   * to -1; below -1000 the budget truncates to 0.
   */
  lemma NegativeBudget(targetFrameRate: Int32)
    requires targetFrameRate < 0
    ensures -1000 <= targetFrameRate <= -501 ==> Budget(targetFrameRate) == -1
    ensures -500 <= targetFrameRate ==> Budget(targetFrameRate) <= -2
    ensures targetFrameRate < -1000 ==> Budget(targetFrameRate) == 0
  {
    var m: nat := 0 - (targetFrameRate as int);
    assert Budget(targetFrameRate) == -(MS_PER_SECOND / m);
    if m <= 500 {
      DivAtLeast(MS_PER_SECOND, m, 2);
    } else if m <= 1000 {
      DivAtLeast(MS_PER_SECOND, m, 1);
      DivAtMost(MS_PER_SECOND, m, 1);
    } else {
      DivBounds(MS_PER_SECOND, m);
    }
  }

  lemma MulMono(a: nat, b: nat, c: nat)
    requires a <= b
    ensures a * c <= b * c
  {
    assert b * c == a * c + (b - a) * c;
  }

  lemma MulStrict(a: nat, b: nat, c: nat)
    requires a * c < b * c
    ensures a < b
  {
    if a >= b {
      MulMono(b, a, c);
    }
  }

  lemma DivAtLeast(x: nat, y: nat, k: nat)
    requires y >= 1 && k * y <= x
    ensures x / y >= k
  {
    var q := x / y;
    assert x < (q + 1) * y by {
      assert q * y + x % y == x && x % y < y;
      assert (q + 1) * y == q * y + y;
    }
    MulStrict(k, q + 1, y);
  }

  lemma DivAtMost(x: nat, y: nat, k: nat)
    requires y >= 1 && x < (k + 1) * y
    ensures x / y <= k
  {
    var q := x / y;
    assert q * y <= x by { assert q * y + x % y == x && x % y >= 0; }
    MulStrict(q, k + 1, y);
  }

  /** Largest processing time for which none of the loop's 32-bit operations wraps. */
  const MAX_UNWRAPPED_PROC_TIME: nat := INT32_MAX - MS_PER_SECOND - SCHEDULING_OFFSET_MS

  /**
   * For a produced frame and any processing time that fits the 32-bit arithmetic, the sleep is
   * `max(1, 1000/F - procTime - 7)`, so it lies between 1 and `max(1, 1000/F)`.
   */
  lemma SleepForProducedFrame(targetFrameRate: Int32, procTime: nat)
    requires targetFrameRate != 0 && procTime <= MAX_UNWRAPPED_PROC_TIME
    ensures SleepMs(targetFrameRate, true, procTime)
         == Success(Max(1, Budget(targetFrameRate) - procTime - SCHEDULING_OFFSET_MS))
    ensures 1 <= SleepMs(targetFrameRate, true, procTime).value <= Max(1, Budget(targetFrameRate))
  {
    var b := Budget(targetFrameRate);
    assert Wrap32(procTime) == procTime;
    assert Wrap32(b - procTime) == b - procTime;
    assert Wrap32(b - procTime - SCHEDULING_OFFSET_MS) == b - procTime - SCHEDULING_OFFSET_MS;
  }

  /**
   * A long processing time is credited: while nothing wraps (a processing time of at most
   * `MAX_UNWRAPPED_PROC_TIME`, that is INT32_MAX - 1007 ms), the sleep never grows with it.
   */
  lemma SleepMonotone(targetFrameRate: Int32, p: nat, q: nat)
    requires targetFrameRate != 0 && p <= q <= MAX_UNWRAPPED_PROC_TIME
    ensures SleepMs(targetFrameRate, true, q).value <= SleepMs(targetFrameRate, true, p).value
  {
    SleepForProducedFrame(targetFrameRate, p);
    SleepForProducedFrame(targetFrameRate, q);
  }

  /** `(int)x` on a double: truncation toward zero. */
  function Truncate(x: real): (r: int)
    ensures x >= 0.0 ==> 0 <= r && r as real <= x < r as real + 1.0
    ensures x < 0.0 ==> r <= 0 && r as real - 1.0 < x <= r as real
  {
    if x >= 0.0 then x.Floor else -((-x).Floor)
  }

  /** `(int)(n * ratio)`: one dimension of the resize target. */
  function TargetDim(n: nat, ratio: real): (d: int)
    ensures ratio >= 0.0 ==> d >= 0 && d == (n as real * ratio).Floor
    ensures ratio >= 0.0 ==> d as real <= n as real * ratio < d as real + 1.0
    ensures 0.0 <= ratio <= 1.0 ==> d <= n
  {
    assert ratio >= 0.0 ==> n as real * ratio >= 0.0;
    assert ratio <= 1.0 ==> n as real * ratio <= n as real;
    Truncate(n as real * ratio)
  }

  /** Width and height of the resize target for a frame of the given size. */
  function TargetSize(width: nat, height: nat, ratio: real): (size: (int, int))
    ensures ratio >= 0.0 ==> size == ((width as real * ratio).Floor, (height as real * ratio).Floor)
  {
    (TargetDim(width, ratio), TargetDim(height, ratio))
  }

  /** A 1920x1080 output at scale 0.5 yields a 960x540 target. */
  lemma HalfScaleFullHd()
    ensures TargetSize(1920, 1080, 0.5) == (960, 540)
  {
    assert 1920 as real * 0.5 == 960 as real;
    assert 1080 as real * 0.5 == 540 as real;
  }

  /** At scale 0.0004 a 1920x1080 output yields a 0x0 target, which no texture can have. */
  lemma TinyScaleEmptyTarget()
    ensures TargetSize(1920, 1080, 0.0004) == (0, 0)
  {
    assert 1920 as real * 0.0004 < 1.0;
    assert 1080 as real * 0.0004 < 1.0;
  }
}
