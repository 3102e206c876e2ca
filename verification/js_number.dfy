/** JavaScript number arithmetic on integral values, and the facts about it the proofs use. */
module JsNumber {

  /** JavaScript's `a % b` for a positive divisor: the remainder truncated toward zero,
      so it takes the sign of `a` (Dafny's own `%` is Euclidean and never negative). */
  function JsRem(a: int, b: int): (r: int)
    requires b > 0
    ensures -b < r < b
    ensures (a - r) % b == 0
    ensures a >= 0 ==> r >= 0
    ensures a <= 0 ==> r <= 0
  {
    if a >= 0 then
      ModUnique(a - a % b, b, a / b, 0);
      a % b
    else
      var m := (-a) % b;
      assert a + m == -((-a) / b) * b;
      ModUnique(a + m, b, -((-a) / b), 0);
      -m
  }

  /** Division with remainder is unique. */
  lemma ModUnique(a: int, s: int, q: int, r: int)
    requires s > 0 && 0 <= r < s && a == q * s + r
    ensures a % s == r && a / s == q
  {
    var q0, r0 := a / s, a % s;
    assert a == q0 * s + r0 && 0 <= r0 < s;
    assert (q - q0) * s == q * s - q0 * s;
    MulSign(q - q0, s);
  }

  lemma MulSign(k: int, s: int)
    requires s >= 0
    ensures k >= 0 ==> k * s >= 0
    ensures k >= 1 ==> k * s >= s
    ensures k <= -1 ==> k * s <= -s
  {
    if k >= 1 { MulLeMul(1, k, s); }
    if k <= -1 { MulLeMul(k, -1, s); }
  }

  lemma MulLeMul(a: int, b: int, s: int)
    requires a <= b && s >= 0
    ensures a * s <= b * s
  {
  }
}
