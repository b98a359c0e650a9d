/** Facts about products and quotients, each small enough for the solver. */
module Arithmetic {

  lemma DivMod(n: nat, w: nat)
    requires w >= 1
    ensures n == (n / w) * w + n % w && 0 <= n / w && 0 <= (n / w) * w
  {}

  lemma MulLe(a: nat, b: nat, w: nat)
    requires a <= b
    ensures a * w <= b * w
  {}

  lemma MulLt(a: nat, b: nat, w: nat)
    requires a * w < b * w
    ensures a < b
  {}

  /** Quotient and remainder are unique. */
  lemma DivUnique(n: nat, q: nat, r: nat, w: nat)
    requires r < w && n == q * w + r
    ensures n / w == q && n % w == r
  {
    DivMod(n, w);
    var d := n / w;
    MulLt(q, d + 1, w);
    MulLt(d, q + 1, w);
  }

  lemma Distribute(x: int, y: int, b: int)
    ensures (x + y) * b == x * b + y * b
  {}
}
