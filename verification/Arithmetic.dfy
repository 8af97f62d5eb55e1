/** Products and quotients that the solver does not see through by itself. */
module Arithmetic {

  lemma Times(m: int, size: nat)
    ensures m >= 1 ==> m * size >= size
    ensures m <= 0 ==> m * size <= 0
  {
  }

  lemma DivUnique(n: nat, q: nat, r: nat, size: nat)
    requires size > 0 && r < size && n == q * size + r
    ensures n / size == q && n % size == r
  {
    var d := n / size - q;
    assert d * size == r - n % size;
    Times(d, size);
    assert -d * size == n % size - r;
    Times(-d, size);
  }
}
