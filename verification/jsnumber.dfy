/**
 * The pieces of JavaScript number arithmetic the watermark component relies
 * on, over exact reals: `Math.ceil`, and the iteration count of a counting
 * loop bounded by `Math.ceil(num / den)`.
 */
module JsNumber {
  import opened Optional

  /** `Math.ceil` of a finite number: the least integer not below `x`. */
  function Ceil(x: real): (r: int)
    ensures x <= r as real < x + 1.0
  {
    -((-x).Floor)
  }

  /** Clamps an iteration bound: a loop `k < n` starting at 0 runs max(n, 0) times. */
  function NonNeg(n: int): (r: nat)
    ensures n >= 0 ==> r == n
    ensures n < 0 ==> r == 0
  {
    if n > 0 then n else 0
  }

  /** `n` copies of `den` reach `num`, and `n - 1` copies do not. */
  predicate IsLeastCover(n: nat, num: real, den: real)
  {
    n as real * den >= num && (n == 0 || (n - 1) as real * den < num)
  }

  /**
   * How many times `for (let k = 0; k < Math.ceil(num / den); k++)` runs,
   * or `None` when it never stops. In JavaScript `num / 0` is `+Infinity`
   * for a positive `num` (the loop runs forever), `-Infinity` for a
   * negative one and `NaN` for zero (the loop test is false at once).
   */
  function LoopCount(num: real, den: real): (r: Option<nat>)
    ensures r.None? <==> den == 0.0 && num > 0.0
    ensures den > 0.0 ==> r.Some? && IsLeastCover(r.value, num, den)
    ensures r.Some? && r.value > 0 <==> den != 0.0 && num / den > 0.0
  {
    if den == 0.0 then
      (if num > 0.0 then None else Some(0))
    else
      var c := Ceil(num / den);
      if den > 0.0 then
        CeilIsLeastCover(num, den);
        Some(NonNeg(c))
      else
        Some(NonNeg(c))
  }

  /** For a positive divisor the clamped ceiling of the quotient is the least cover. */
  lemma CeilIsLeastCover(num: real, den: real)
    requires den > 0.0
    ensures IsLeastCover(NonNeg(Ceil(num / den)), num, den)
  {
    var q := num / den;
    var c := Ceil(q);
    assert q * den == num;
    if c > 0 {
      ScaleMonotone(q, c as real, den);
      assert (c as real - 1.0) * den < q * den by {
        assert q * den - (c as real - 1.0) * den == (q - (c as real - 1.0)) * den;
      }
    } else {
      assert q * den <= 0.0 * den by {
        ScaleMonotone(q, 0.0, den);
      }
    }
  }

  /** For a positive divisor the loop count is exactly the least cover. */
  lemma LoopCountIsTheLeastCover(num: real, den: real, n: nat)
    requires den > 0.0
    ensures LoopCount(num, den) == Some(n) <==> IsLeastCover(n, num, den)
  {
    var r := LoopCount(num, den);
    if IsLeastCover(n, num, den) {
      LeastCoverUnique(num, den, n, r.value);
    }
  }

  /** Two least covers of the same quantity are equal. */
  lemma LeastCoverUnique(num: real, den: real, n: nat, m: nat)
    requires den > 0.0
    requires IsLeastCover(n, num, den) && IsLeastCover(m, num, den)
    ensures n == m
  {
    if n < m {
      Overshoots(num, den, n, m);
    } else if m < n {
      Overshoots(num, den, m, n);
    }
  }

  /** A cover below a least cover `m` would make `m - 1` copies reach the target too. */
  lemma Overshoots(num: real, den: real, n: nat, m: nat)
    requires den > 0.0 && n < m
    requires n as real * den >= num
    ensures (m - 1) as real * den >= num
  {
    var a := n as real;
    var b := (m - 1) as real;
    assert a <= b;
    ScaleMonotone(a, b, den);
    assert a * den <= b * den;
  }

  /** Multiplying by a positive number keeps order. */
  lemma ScaleMonotone(a: real, b: real, den: real)
    requires den > 0.0 && a <= b
    ensures a * den <= b * den
  {
    assert b * den - a * den == (b - a) * den;
  }
}
