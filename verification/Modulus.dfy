/** Remainders after a full turn. */
module Modulus {
  lemma SmallModulo(k: nat, n: nat)
    requires k < n
    ensures k % n == k
  {
  }

  lemma AddModulus(j: nat, n: nat)
    requires n > 0
    ensures (j + n) % n == j % n
  {
    var d, r, r' := (j + n) / n - j / n - 1, j % n, (j + n) % n;
    assert d * n == r - r';
    NoMultipleBetween(d, n);
  }

  lemma NoMultipleBetween(d: int, n: int)
    requires -n < d * n < n
    ensures d == 0
  {
    if d >= 1 {
      assert false;
    } else if d <= -1 {
      assert false;
    }
  }
}
