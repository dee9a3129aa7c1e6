/** Products and quotients of variables, one fact at a time. */
module Products {

  /** Powers of two. */
  function Power(n: nat): (r: nat)
    ensures r > 0
  {
    if n == 0 then 1 else 2 * Power(n - 1)
  }

  lemma Associate(a: int, b: int, c: int)
    ensures a * (b * c) == a * b * c
  {
  }

  lemma Swap(a: int, b: int, c: int)
    ensures a * b * c == a * c * b
  {
    Associate(a, b, c);
    Associate(a, c, b);
    assert b * c == c * b;
  }

  lemma Difference(a: int, b: int, n: int)
    ensures (b - a) * n == b * n - a * n
  {
  }

  lemma Signs(a: int, b: int)
    ensures a >= 0 && b >= 0 ==> a * b >= 0
    ensures a > 0 && b > 0 ==> a * b > 0
    ensures (-a) * b == -(a * b)
  {
  }

  lemma Grow(a: int, b: int, n: int)
    requires n >= 0
    ensures a <= b ==> a * n <= b * n
  {
    Difference(a, b, n);
    Signs(b - a, n);
  }

  lemma Cancel(a: int, b: int, n: int)
    requires n > 0
    ensures a * n <= b * n <==> a <= b
    ensures a * n < b * n <==> a < b
  {
    Difference(a, b, n);
    Difference(b, a, n);
    Signs(b - a, n);
    Signs(a - b, n);
  }

  lemma DivBounds(x: nat, n: nat)
    requires n > 0
    ensures x / n * n <= x < (x / n + 1) * n
  {
    assert x == x / n * n + x % n;
    Difference(-1, x / n, n);
  }

  lemma DivIs(x: nat, n: nat, q: int)
    requires n > 0 && q * n <= x < (q + 1) * n
    ensures x / n == q
  {
    DivBounds(x, n);
    Cancel(q, x / n + 1, n);
    Cancel(x / n, q + 1, n);
  }

  lemma Commute(a: int, b: int)
    ensures a * b == b * a
  {
  }

  lemma DivAtMost(x: nat, n: nat, q: int)
    requires n > 0 && x <= q * n
    ensures 0 <= x / n <= q
  {
    DivBounds(x, n);
    Cancel(x / n, q, n);
    Cancel(0, x / n + 1, n);
  }
}
