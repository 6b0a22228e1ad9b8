/** Time values, which are compared as binary64 numbers: their bit patterns are chosen
    so that the numbers are positive and normal, and in the order of the times. */
module FixTime {
  import opened Bits

  const F64_MIN_NORMAL: nat := 0x0010_0000_0000_0000
  const F64_MAX_NORMAL: nat := 0x7fef_ffff_ffff_ffff
  const F64_INFINITY: nat := 0x7ff0_0000_0000_0000
  const TIME_MAX: nat := F64_MAX_NORMAL - F64_MIN_NORMAL

  /** A time in units of 1024 ns; a second has 2^20 of these units, not all of which
      are used. */
  type Time = t: nat | t <= TIME_MAX

  /** The bit pattern of a positive normal number, or of positive infinity. */
  type F64 = b: nat | F64_MIN_NORMAL <= b <= F64_INFINITY witness F64_INFINITY

  // ----- binary64 -------------------------------------------------------------------

  const MANTISSA: nat := 0x0010_0000_0000_0000

  /** The number that a bit pattern other than that of infinity stands for, times 2^1074
      (section 3.4 of IEEE 754-2008): the significand has an implicit leading bit, and
      is scaled by the exponent. */
  function Value(b: F64): nat
    requires b != F64_INFINITY
  {
    (MANTISSA + b % MANTISSA) * Pow2(b / MANTISSA - 1)
  }

  /** `<=` on numbers. */
  predicate Le(a: F64, b: F64) {
    b == F64_INFINITY || (a != F64_INFINITY && Value(a) <= Value(b))
  }

  lemma {:induction false} MulUp(a: nat, b: nat, c: nat, d: nat)
    requires a < b && 0 < c <= d
    ensures a * c < b * d
  {
    assert a * c < b * c <= b * d;
  }

  /** A greater bit pattern is a greater number. */
  lemma {:induction false} ValueUp(a: F64, b: F64)
    requires a < b < F64_INFINITY
    ensures Value(a) < Value(b)
  {
    var e, f := a / MANTISSA, b / MANTISSA;
    var m, n := a % MANTISSA, b % MANTISSA;
    Pow2Up(e - 1, f - 1);
    if e == f {
      MulUp(MANTISSA + m, MANTISSA + n, Pow2(e - 1), Pow2(e - 1));
    } else {
      Pow2Up(e, f - 1);
      MulUp(MANTISSA + m, 2 * MANTISSA, Pow2(e - 1), Pow2(e - 1));
      assert 2 * MANTISSA * Pow2(e - 1) == MANTISSA * Pow2(e);
      MulLe(MANTISSA, MANTISSA + n, Pow2(e), Pow2(f - 1));
    }
  }

  lemma {:induction false} MulLe(a: nat, b: nat, c: nat, d: nat)
    requires a <= b && c <= d
    ensures a * c <= b * d
  {
    assert a * c <= b * c <= b * d;
  }

  /** Numbers are in the order of their bit patterns, and infinity comes last. */
  lemma {:induction false} LeIsLe(a: F64, b: F64)
    ensures Le(a, b) <==> a <= b
  {
    if a < b < F64_INFINITY {
      ValueUp(a, b);
    } else if b < a < F64_INFINITY {
      ValueUp(b, a);
    }
  }

  // ----- times ------------------------------------------------------------------------

  function ToFp(t: Time): F64 {
    F64_MIN_NORMAL + t
  }

  function FromFp(x: F64): Time
    requires x != F64_INFINITY
  {
    x - F64_MIN_NORMAL
  }

  /** Times are compared as they should be, and come before vacant positions. */
  lemma {:induction false} ToFpOrder(s: Time, t: Time)
    ensures (Le(ToFp(s), ToFp(t)) <==> s <= t) && ToFp(t) != F64_INFINITY && FromFp(ToFp(t)) == t
    ensures Le(ToFp(s), F64_INFINITY) && !Le(F64_INFINITY, ToFp(s))
  {
    LeIsLe(ToFp(s), ToFp(t));
  }

  // ----- durations --------------------------------------------------------------------

  /** Seconds and nanoseconds. */
  datatype Duration = Duration(secs: nat, nanos: nat)

  predicate DurationOk(d: Duration) {
    d.secs <= 0xfff_ffff_ffff && d.nanos < 1_000_000_000
  }

  function InNanos(d: Duration): nat {
    d.secs * 1_000_000_000 + d.nanos
  }

  /** `(secs << 20) + (nanos >> 10)` */
  function FromDuration(d: Duration): nat {
    d.secs * 0x100000 + d.nanos / 0x400
  }

  /** `Duration::new`, which carries whole seconds over. */
  function NewDuration(secs: nat, nanos: nat): Duration {
    Duration(secs + nanos / 1_000_000_000, nanos % 1_000_000_000)
  }

  function ToDuration(t: nat): Duration {
    NewDuration(t / 0x100000, t % 0x100000 * 0x400)
  }

  /** Durations are rounded down by less than 1024 ns, and stay in order. */
  lemma {:induction false} DurationRounding(d: Duration)
    requires DurationOk(d)
    ensures InNanos(ToDuration(FromDuration(d))) <= InNanos(d) < InNanos(ToDuration(FromDuration(d))) + 0x400
    ensures FromDuration(ToDuration(FromDuration(d))) == FromDuration(d)
  {
    var t := FromDuration(d);
    assert d.nanos / 0x400 < 0x100000;
    assert t / 0x100000 == d.secs && t % 0x100000 == d.nanos / 0x400;
  }

  lemma {:induction false} DurationOrder(a: Duration, b: Duration)
    requires DurationOk(a) && DurationOk(b) && InNanos(a) <= InNanos(b)
    ensures FromDuration(a) <= FromDuration(b)
  {
    assert a.nanos / 0x400 < 0x100000;
    if a.secs < b.secs {
      assert a.secs * 0x100000 + 0x100000 <= b.secs * 0x100000;
    } else {
      assert a.secs == b.secs;
    }
  }

  /** A duration that was rounded down, in nanoseconds. */
  lemma {:induction false} RoundedNanos(d: Duration)
    requires DurationOk(d)
    ensures ToDuration(FromDuration(d)) == Duration(d.secs, d.nanos - d.nanos % 0x400)
    ensures DurationOk(ToDuration(FromDuration(d)))
  {
    var t := FromDuration(d);
    assert d.nanos / 0x400 < 0x100000;
    assert t / 0x100000 == d.secs && t % 0x100000 == d.nanos / 0x400;
  }

  /** What comes first after rounding is less than 1024 ns late before it. */
  lemma {:induction false} RoundedOrder(a: Duration, b: Duration)
    requires DurationOk(a) && DurationOk(b) && FromDuration(a) <= FromDuration(b)
    ensures InNanos(a) < InNanos(b) + 0x400
    ensures InNanos(ToDuration(FromDuration(a))) <= InNanos(b)
  {
    RoundedNanos(a);
    assert a.nanos / 0x400 < 0x100000 && b.nanos / 0x400 < 0x100000;
    if a.secs >= b.secs {
      assert a.secs == b.secs;
    } else {
      assert a.secs * 1_000_000_000 + 1_000_000_000 <= b.secs * 1_000_000_000;
    }
  }

  /** `now` is before `start`, but after rounding it is not. */
  ghost predicate Early(start: Duration, now: Duration) {
    DurationOk(now) && InNanos(now) < InNanos(start) && FromDuration(now) >= FromDuration(start)
  }

  /** A task can be taken to have started too early if and only if its start is not a
      multiple of 1024 ns within its second. */
  lemma {:induction false} EarlyIs(start: Duration)
    requires DurationOk(start)
    ensures (exists now :: Early(start, now)) <==> start.nanos % 0x400 != 0
  {
    if start.nanos % 0x400 != 0 {
      assert Early(start, Duration(start.secs, start.nanos - start.nanos % 0x400));
    } else if now :| Early(start, now) {
      RoundedNanos(start);
      RoundedOrder(start, now);
      assert false;
    }
  }

  /** Nothing is left of durations of less than 1024 ns. */
  lemma {:induction false} SmallDuration(d: Duration)
    requires d.secs == 0 && d.nanos < 0x400
    ensures DurationOk(d) && FromDuration(d) == 0 && InNanos(d) == d.nanos
  {
  }

  lemma {:induction false} SmallEarly(start: Duration, now: Duration)
    requires start.secs == now.secs == 0 && now.nanos < start.nanos < 0x400
    ensures Early(start, now)
  {
    SmallDuration(start);
    SmallDuration(now);
  }
}
