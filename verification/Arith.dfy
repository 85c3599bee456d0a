/** Facts about division and remainder that the solver does not find by itself. */
module Arith {

  lemma {:induction false} MulNext(w: nat, a: int, b: int)
    requires a < b
    ensures w * a + w <= w * b
    decreases b - a
  {
    if a + 1 < b {
      MulNext(w, a, b - 1);
    }
    assert w * b == w * (b - 1) + w;
  }

  /** Quotient and remainder are determined by p == w * q + r. */
  lemma QuotientUnique(w: nat, q: int, r: int, q': int, r': int)
    requires 0 <= r < w && 0 <= r' < w && w * q + r == w * q' + r'
    ensures q == q' && r == r'
  {
    if q < q' {
      MulNext(w, q, q');
    } else if q' < q {
      MulNext(w, q', q);
    }
  }

  lemma DivMod(p: int, w: nat, q: int, r: int)
    requires 0 <= r < w && p == w * q + r
    ensures p / w == q && p % w == r
  {
    assert p == w * (p / w) + p % w;
    QuotientUnique(w, p / w, p % w, q, r);
  }
}
