/**
  The progress percentage of a goal: `status` hours done out of `totalTime`,
  as `Math.min(100, Math.max(0, Math.round(status / totalTime * 100)))`, and
  0 when `totalTime` is not positive.  Both goal pages compute it the same way.
*/
module Progress {

  /** `Math.round(p / q)` for `q > 0`: the nearest integer, halves rounded up. */
  function Round(p: int, q: int): (r: int)
    requires q > 0
    ensures 2 * q * r - q <= 2 * p < 2 * q * r + q
  {
    var r := (2 * p + q) / (2 * q);
    assert 2 * q * r <= 2 * p + q < 2 * q * r + 2 * q by {
      DivBounds(2 * p + q, 2 * q);
    }
    r
  }

  lemma DivBounds(a: int, b: int)
    requires b > 0
    ensures b * (a / b) <= a < b * (a / b) + b
  {
  }

  /** `Math.min(100, Math.max(0, x))` */
  function Clamp(x: int): (r: int)
    ensures 0 <= r <= 100
    ensures 0 <= x <= 100 ==> r == x
    ensures x < 0 ==> r == 0
    ensures x > 100 ==> r == 100
  {
    if x < 0 then 0 else if x > 100 then 100 else x
  }

  /** `calculateProgressPercentage` */
  function Percentage(status: int, totalTime: int): (pct: int)
    ensures 0 <= pct <= 100
    ensures totalTime <= 0 ==> pct == 0
  {
    if totalTime > 0 then Clamp(Round(100 * status, totalTime)) else 0
  }

  /**
    Within `0 <= status <= totalTime` the clamp never acts: the result is
    the percentage rounded to the nearest integer.
  */
  lemma PercentageRounds(status: int, totalTime: int)
    requires totalTime > 0 && 0 <= status <= totalTime
    ensures var pct := Percentage(status, totalTime);
      2 * totalTime * pct - totalTime <= 200 * status < 2 * totalTime * pct + totalTime
  {
    var r := Round(100 * status, totalTime);
    RoundInRange(100 * status, totalTime, r);
  }

  lemma RoundInRange(p: int, q: int, r: int)
    requires q > 0 && 0 <= p <= 100 * q
    requires 2 * q * r - q <= 2 * p < 2 * q * r + q
    ensures 0 <= r <= 100
  {
    MulOutside(2 * q, r);
  }

  lemma MulOutside(a: int, x: int)
    requires a > 0
    ensures x <= -1 ==> a * x <= -a
    ensures x >= 101 ==> a * x >= 101 * a
  {
    if x <= -1 {
      MulMono(a, x, -1);
    }
    if x >= 101 {
      MulMono(a, 101, x);
    }
  }

  lemma MulMono(a: int, x: int, y: int)
    requires a > 0 && x <= y
    ensures a * x <= a * y
  {
  }

  /** More hours done never lowers the percentage. */
  lemma PercentageMonotone(s1: int, s2: int, totalTime: int)
    requires s1 <= s2
    ensures Percentage(s1, totalTime) <= Percentage(s2, totalTime)
  {
    if totalTime > 0 {
      var r1, r2 := Round(100 * s1, totalTime), Round(100 * s2, totalTime);
      if r1 > r2 {
        MulMono(2 * totalTime, r2 + 1, r1);
        assert false;
      }
    }
  }

  /** Finishing every hour (or more) shows 100; no progress (or less) shows 0. */
  lemma PercentageEnds(status: int, totalTime: int)
    requires totalTime > 0
    ensures status >= totalTime ==> Percentage(status, totalTime) == 100
    ensures status <= 0 ==> Percentage(status, totalTime) == 0
  {
    var r := Round(100 * status, totalTime);
    if status >= totalTime && r < 100 {
      MulMono(2 * totalTime, r + 1, 100);
      MulMono(200, totalTime, status);
      assert false;
    }
    if status <= 0 && r > 0 {
      MulMono(2 * totalTime, 1, r);
      assert false;
    }
  }
}
