/** The remaining-time estimate sent with each chunk's progress event. */
module RemainTime {

  /** The divisor CalcRemainTime uses: the current size, or 1 when it is below 0.001. */
  function Divisor(current: int): (d: real)
    ensures d >= 1.0
    ensures (current as real) < 0.001 ==> d == 1.0
    ensures (current as real) >= 0.001 ==> d == current as real
  {
    if (current as real) < 0.001 then 1.0 else current as real
  }

  /** `elapsed * (total / current) - elapsed` over exact reals, with `elapsed` the ticks
      since the download started. The estimate extrapolates the elapsed time by the
      ratio of what is still outstanding to what has arrived; with nothing received
      yet the current size counts as 1. */
  function CalcRemainTime(total: int, current: int, elapsed: int): (r: real)
    ensures current >= 1 ==> r * (current as real) == (elapsed as real) * ((total - current) as real)
    ensures current <= 0 ==> r == (elapsed as real) * ((total - 1) as real)
  {
    var e, t, d := elapsed as real, total as real, Divisor(current);
    assert (t / d) * d == t;
    assert (e * (t / d) - e) * d == e * ((t / d) * d) - e * d;
    e * (t / d) - e
  }

  /** While at most the total has arrived, of a positive total, the estimate is not
      negative. */
  lemma RemainNonNegative(total: int, current: int, elapsed: int)
    requires elapsed >= 0 && current <= total && 1 <= total
    ensures CalcRemainTime(total, current, elapsed) >= 0.0
  {
    var r := CalcRemainTime(total, current, elapsed);
    if current >= 1 {
      var c := current as real;
      var n := (elapsed as real) * ((total - current) as real);
      assert n >= 0.0;
      assert r == n / c;
    } else {
      assert r == (elapsed as real) * ((total - 1) as real);
    }
  }

  /** Once more than the total has arrived the estimate is negative. This happens for
      a download of unknown length once more than one byte has arrived, since its
      total is the sentinel 1. */
  lemma RemainNegativePastTotal(total: int, current: int, elapsed: int)
    requires elapsed > 0 && 1 <= total < current
    ensures CalcRemainTime(total, current, elapsed) < 0.0
  {
    var r := CalcRemainTime(total, current, elapsed);
    var n := (elapsed as real) * ((total - current) as real);
    assert n < 0.0;
    assert r * (current as real) == n;
  }

  /** Once everything has arrived the estimate is zero. */
  lemma RemainZeroAtEnd(total: int, elapsed: int)
    requires total >= 1
    ensures CalcRemainTime(total, total, elapsed) == 0.0
  {
  }

  /** Under a constant rate of `ticksPerByte`, the estimate is the time the remaining
      bytes take at that rate. */
  lemma RemainAtConstantRate(total: int, current: int, elapsed: int, ticksPerByte: real)
    requires current >= 1
    requires elapsed as real == (current as real) * ticksPerByte
    ensures CalcRemainTime(total, current, elapsed) == ticksPerByte * ((total - current) as real)
  {
    var c := current as real;
    var r := CalcRemainTime(total, current, elapsed);
    assert r * c == (ticksPerByte * ((total - current) as real)) * c;
  }

  /** Under a constant rate the estimate shrinks as more bytes arrive. */
  lemma RemainDecreasesAtConstantRate(total: int, c1: int, e1: int, c2: int, e2: int, ticksPerByte: real)
    requires 1 <= c1 <= c2 && ticksPerByte >= 0.0
    requires e1 as real == (c1 as real) * ticksPerByte
    requires e2 as real == (c2 as real) * ticksPerByte
    ensures CalcRemainTime(total, c2, e2) <= CalcRemainTime(total, c1, e1)
  {
    RemainAtConstantRate(total, c1, e1, ticksPerByte);
    RemainAtConstantRate(total, c2, e2, ticksPerByte);
    var d1, d2 := (total - c1) as real, (total - c2) as real;
    var gap := d1 - d2;
    assert gap == (c2 - c1) as real && gap >= 0.0;
    assert ticksPerByte * gap >= 0.0;
    assert ticksPerByte * d1 == ticksPerByte * d2 + ticksPerByte * gap;
  }
}
