// What the remainders of loops and rings need of arithmetic.
module Modulo {
  lemma NonZeroMultiple(d: int, n: int)
    requires n > 0
    ensures d != 0 ==> d * n >= n || d * n <= -n
  {
    if d >= 1 { assert (d - 1) * n >= 0; } else if d <= -1 { assert (-d - 1) * n >= 0; }
  }

  lemma ModuloUnique(a: int, n: int, q: int, r: int)
    requires n > 0 && a == q * n + r && 0 <= r < n
    ensures a % n == r
  {
    var d := a / n - q;
    assert a == (a / n) * n + a % n;
    assert d * n == r - a % n;
    NonZeroMultiple(d, n);
  }

  lemma ModuloOfSum(a: int, b: int, n: int)
    requires n > 0
    ensures (a % n + b) % n == (a + b) % n
  {
    var q := (a % n + b) / n;
    assert a == (a / n) * n + a % n;
    assert a % n + b == q * n + (a % n + b) % n;
    assert a + b == (a / n + q) * n + (a % n + b) % n;
    ModuloUnique(a + b, n, a / n + q, (a % n + b) % n);
  }
}
