/** Facts about products and quotients the solver does not find on its own. */
module Arithmetic {
  lemma Distribute(a: int, b: int, c: int)
    ensures (a + b) * c == a * c + b * c
  {
  }

  lemma Regroup(a: int, b: int, c: int)
    ensures a * (b * c) == (a * b) * c
  {
  }

  lemma AtLeast(k: int, d: int)
    requires k >= 1 && d > 0
    ensures k * d >= d
  {
  }

  lemma DivisionIsUnique(a: nat, d: nat, k: int, r: nat)
    requires d > 0 && r < d && a == k * d + r
    ensures a % d == r && a / d == k
  {
    var k', r' := a / d, a % d;
    assert a == k' * d + r';
    Distribute(k' - k, k, d);
    Distribute(k - k', k', d);
    if k < k' {
      AtLeast(k' - k, d);
    } else if k' < k {
      AtLeast(k - k', d);
    }
  }

  lemma ProductGrows(a: nat, b: nat, c: nat)
    requires b <= c
    ensures a * b <= a * c
  {
    Distribute(b, c - b, a);
  }
}
