/** Small helpers shared by the other modules: an optional value, and Go's
    integer conversion and remainder operators, whose rounding differs from
    Dafny's built-in ones. */
module Common {

  datatype Option<+T> = None | Some(value: T)

  /** Go's `int(f)` for a float64 `f`: rounds toward zero (not toward minus
      infinity, which is what `.Floor` does). */
  function Trunc(r: real): (n: int)
    ensures r >= 0.0 ==> n as real <= r < n as real + 1.0
    ensures r < 0.0 ==> n as real - 1.0 < r <= n as real
    ensures n == 0 <==> -1.0 < r < 1.0
  {
    if r >= 0.0 then r.Floor else -((-r).Floor)
  }

  /** Go's `a % n` for n > 0: the remainder carries the sign of the dividend
      (Dafny's `%` is Euclidean and is never negative), and it is congruent
      to `a` modulo `n`. */
  function GoRem(a: int, n: int): (r: int)
    requires n > 0
    ensures -n < r < n
    ensures r % n == a % n
    ensures a >= 0 ==> r >= 0
    ensures a <= 0 ==> r <= 0
  {
    if a >= 0 then a % n else NegRem(a, n); -((-a) % n)
  }

  /** Dafny's remainder is determined by any quotient-remainder split. */
  lemma ModUnique(a: int, n: int, k: int, t: int)
    requires n > 0 && 0 <= t < n && a == k * n + t
    ensures a % n == t
  {
    var q, r := a / n, a % n;
    assert a == q * n + r;
    var d := q - k;
    assert d * n == t - r;
  }

  lemma NegRem(a: int, n: int)
    requires n > 0 && a < 0
    ensures (-((-a) % n)) % n == a % n
  {
    var q, s := (-a) / n, (-a) % n;
    assert -a == q * n + s;
    if s == 0 {
      ModUnique(a, n, -q, 0);
      ModUnique(0, n, 0, 0);
    } else {
      ModUnique(a, n, -q - 1, n - s);
      ModUnique(-s, n, -1, n - s);
    }
  }
}
