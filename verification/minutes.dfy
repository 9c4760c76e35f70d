/** The time arithmetic shared by every transition: closed intervals are
    counted in whole milliseconds and never negative, and minute totals are
    reported rounded to hundredths of a minute. */
module Minutes {

  /** Milliseconds in one minute. */
  const MsPerMinute: int := 60000

  /** Milliseconds in one hundredth of a minute. */
  const MsPerCentiMinute: int := 600

  /** The duration credited for an interval from `start` to `end`: the
      elapsed milliseconds, or zero when the clock ran backwards. */
  function Credit(start: int, end: int): (d: nat)
    ensures end >= start ==> d == end - start
    ensures end < start ==> d == 0
  {
    if end - start > 0 then end - start else 0
  }

  /** `Math.round(minutes * 100)`: a duration in milliseconds rounded to the
      nearest hundredth of a minute, halves rounded up (towards positive
      infinity, as JavaScript does, also for negative totals). */
  function CentiMinutes(ms: int): (c: int)
    ensures c * MsPerCentiMinute - 300 <= ms < c * MsPerCentiMinute + 300
  {
    (ms + 300) / MsPerCentiMinute
  }

  /** The rounded value is the only multiple of a hundredth within half a
      hundredth (ties up) of the exact one. */
  lemma CentiMinutesUnique(ms: int, c: int)
    requires c * MsPerCentiMinute - 300 <= ms < c * MsPerCentiMinute + 300
    ensures CentiMinutes(ms) == c
  {
  }

  /** Rounding is monotone: a larger exact total never reports fewer hundredths. */
  lemma CentiMinutesMonotone(a: int, b: int)
    requires a <= b
    ensures CentiMinutes(a) <= CentiMinutes(b)
  {
  }

  /** A whole number of hundredths is reported exactly. */
  lemma CentiMinutesExact(c: int)
    ensures CentiMinutes(c * MsPerCentiMinute) == c
  {
    CentiMinutesUnique(c * MsPerCentiMinute, c);
  }
}
