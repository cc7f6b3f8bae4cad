/** Facts about products that the solver does not find on its own. */
module Numbers {

  lemma QuotientBounds(n: nat, d: nat, t: nat)
    requires d > 0 && n * d <= t
    ensures n <= t / d
  {
    var q := t / d;
    assert t < q * d + d == (q + 1) * d;
    if n > q {
      ProductMonotone(q + 1, n, d);
    }
  }

  lemma ProductMonotone(a: int, b: int, c: int)
    requires a <= b && 0 <= c
    ensures a * c <= b * c
  {
    assert (b - a) * c >= 0;
  }

  lemma OneMoreTime(n: int, c: int)
    ensures (n + 1) * c == n * c + c
  {
  }
}
