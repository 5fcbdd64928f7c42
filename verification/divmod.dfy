/** Euclidean division facts shared by the time and duration arithmetic. */
module DivMod {

  /** Quotient and remainder are determined by any exact split with a
      remainder in range. */
  lemma DivModUnique(a: int, b: int, q: int, r: int)
    requires b > 0 && 0 <= r < b && a == q * b + r
    ensures a / b == q && a % b == r
  {
    var k := a / b - q;
    assert a == (a / b) * b + a % b;
    assert k * b == r - a % b;
    MultipleBound(k, b);
  }

  /** A non-zero multiple of `b` is at least `b` in size. */
  lemma {:induction false} MultipleBound(k: int, b: int)
    requires b > 0
    ensures k > 0 ==> k * b >= b
    ensures k < 0 ==> k * b <= -b
    decreases if k > 0 then k else -k
  {
    if k > 1 {
      MultipleBound(k - 1, b);
      assert k * b == (k - 1) * b + b;
    } else if k < -1 {
      MultipleBound(k + 1, b);
      assert k * b == (k + 1) * b - b;
    }
  }
}
