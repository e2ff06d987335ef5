/**
 * `isTimeSyncNeeded`: compares the build timestamp embedded at link time
 * (Unix seconds, as a decimal string) with the current time. The clock is
 * passed in as Unix nanoseconds, so the comparison is exact.
 */
module BuildCheck {
  import opened Wrappers
  import opened Atoi

  const NanosPerSecond: int := 1_000_000_000

  /**
   * A sync is needed when the build timestamp is missing, does not parse, or
   * lies after `nowNanos`. `bits` is the width of Go's `int` on the build
   * target, which bounds what `strconv.Atoi` accepts. Go's `Time.Sub` saturates but keeps the sign of the
   * difference, so `now.Sub(built) < 0` is the strict comparison below.
   */
  function IsTimeSyncNeeded(builtTimestamp: string, nowNanos: int, bits: IntSize): (needed: bool)
    ensures needed <==>
      builtTimestamp == ""
      || !WellFormed(builtTimestamp)
      || !(MinInt(bits) <= Magnitude(builtTimestamp) <= MaxInt(bits))
      || nowNanos < Magnitude(builtTimestamp) * NanosPerSecond
  {
    if builtTimestamp == "" then true
    else
      match ParseInt(builtTimestamp, bits)
      case None => true
      case Some(ts) => nowNanos - ts * NanosPerSecond < 0
  }

  /** With a timestamp written by the build, the answer is exactly "the clock is behind the build". */
  lemma NeededIffClockBehindBuild(ts: int, nowNanos: int, bits: IntSize)
    requires MinInt(bits) <= ts <= MaxInt(bits)
    ensures IsTimeSyncNeeded(FormatInt(ts), nowNanos, bits) <==> nowNanos < ts * NanosPerSecond
  {
    ParseFormatRoundTrip(ts, bits);
  }

  /**
   * With a 32-bit `int`, a build timestamp from 2038-01-19 on (here
   * 4102444800, the start of 2100) fails to parse, so a sync is reported as
   * needed whatever the clock says; with a 64-bit `int` it is not needed once
   * the clock has passed it.
   */
  lemma WideTimestampOn32Bit(nowNanos: int)
    ensures IsTimeSyncNeeded(FormatInt(4102444800), nowNanos, 32)
    ensures IsTimeSyncNeeded(FormatInt(4102444800), nowNanos, 64) <==> nowNanos < 4102444800 * NanosPerSecond
  {
    WidthDecidesRange(4102444800);
    NeededIffClockBehindBuild(4102444800, nowNanos, 64);
  }

  /** An unparsable build timestamp such as "abc" always asks for a sync. */
  lemma UnparsableTimestampNeedsSync(nowNanos: int, bits: IntSize)
    ensures IsTimeSyncNeeded("abc", nowNanos, bits)
  {
  }
}
