/** Arithmetic shared by the other modules: the magnitude of a number and
    the facts about integer division the index arithmetic needs. */
module Arith {

  /** `Math.abs` on a number. */
  function Abs(r: real): (a: real)
    ensures a >= 0.0 && (a == r || a == -r)
  {
    if r < 0.0 then -r else r
  }

  /** The only multiple of a positive `s` strictly between `-s` and `s`
      is zero. */
  lemma MulBand(s: int, k: int)
    requires s > 0 && -s < s * k < s
    ensures k == 0
  {
  }

  /** Quotient and remainder are determined: writing `x` as `q * n + r`
      with `0 <= r < n` gives exactly `x / n` and `x % n`. */
  lemma ModUnique(x: int, n: int, q: int, r: int)
    requires n > 0 && 0 <= r < n && x == q * n + r
    ensures x % n == r && x / n == q
  {
    var q', r' := x / n, x % n;
    assert x == q' * n + r';
    assert n * (q - q') == r' - r by {
      assert n * (q - q') == q * n - q' * n;
    }
    MulBand(n, q - q');
  }
}
