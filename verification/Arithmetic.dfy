// Division facts the solver does not find on its own when the divisor is a variable.

module Arithmetic {
  lemma MultipleIsLarge(d: int, n: int)
    requires n >= 0
    ensures d >= 1 ==> d * n >= n
    ensures d <= -1 ==> d * n <= -n
  {
    if d >= 1 {
      assert (d - 1) * n >= 0;
    } else if d <= -1 {
      assert (-d - 1) * n >= 0;
    }
  }

  lemma DivModUnique(x: int, q: int, r: int, n: int)
    requires 0 <= r < n && x == q * n + r
    ensures x % n == r && x / n == q
  {
    var q', r' := x / n, x % n;
    assert x == n * q' + r';
    var d := q - q';
    assert d * n == r' - r;
    MultipleIsLarge(d, n);
  }

  lemma NextDivMod(k: nat, n: nat)
    requires n > 0
    ensures k % n + 1 < n ==> (k + 1) % n == k % n + 1 && (k + 1) / n == k / n
    ensures k % n + 1 == n ==> (k + 1) % n == 0 && (k + 1) / n == k / n + 1
  {
    var q, r := k / n, k % n;
    assert k == q * n + r;
    if r + 1 < n {
      DivModUnique(k + 1, q, r + 1, n);
    } else {
      assert (q + 1) * n == q * n + n;
      DivModUnique(k + 1, q + 1, 0, n);
    }
  }
}
