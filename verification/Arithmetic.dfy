/** Quotients and remainders. */
module Arithmetic {
  lemma DivBasics(x: nat, c: nat)
    requires c > 0
    ensures 0 <= x / c && 0 <= x % c <= x && x % c < c
    ensures x == (x / c) * c + x % c
  {
  }

  lemma OneMore(k: nat, c: nat)
    requires k > 0
    ensures k * c == (k - 1) * c + c
  {
  }

  lemma MulBound(k: nat, c: nat)
    requires k > 0
    ensures k * c >= c
  {
    assert k * c == (k - 1) * c + c;
  }

  lemma MulMonotone(a: nat, b: nat, c: nat)
    requires a <= b
    ensures a * c <= b * c
  {
    assert b * c == a * c + (b - a) * c;
  }

  lemma DivModUnique(x: nat, c: nat, q: nat, r: nat)
    requires c > 0 && r < c && x == q * c + r
    ensures x / c == q && x % c == r
  {
    var d, e := x / c, x % c;
    assert x == d * c + e;
    if d > q {
      assert (d - q) * c == d * c - q * c;
      MulBound(d - q, c);
    } else if d < q {
      assert (q - d) * c == q * c - d * c;
      MulBound(q - d, c);
    }
  }

  lemma Recombine(a: nat, b: nat, r: nat, m: nat, c: nat, mc: nat)
    requires b < m && r < c && mc == m * c
    ensures (a * m + b) * c + r == a * mc + (b * c + r)
    ensures b * c + r < mc
  {
    assert (a * m + b) * c == (a * m) * c + b * c;
    assert (a * m) * c == a * (m * c);
    assert (m - b) * c == m * c - b * c;
    MulBound(m - b, c);
  }

  lemma SlotAndRestOf(idx: nat, m: nat, c: nat, mc: nat, a: nat, b: nat, r: nat)
    requires b < m && r < c && mc == m * c && idx == (a * m + b) * c + r
    ensures mc > 0 && (idx % mc) / c == (idx / c) % m && (idx % mc) % c == idx % c
  {
    Recombine(a, b, r, m, c, mc);
    DivModUnique(idx, c, a * m + b, r);
    DivModUnique(a * m + b, m, a, b);
    DivModUnique(idx, mc, a, b * c + r);
    DivModUnique(b * c + r, c, b, r);
  }

  lemma Decompose(x: nat, c: nat) returns (q: nat, r: nat)
    requires c > 0
    ensures x == q * c + r && r < c
  {
    q, r := x / c, x % c;
  }

  /** Masking after shifting selects the slot of the position within the node. */
  lemma SlotAndRest(idx: nat, m: nat, c: nat, mc: nat)
    requires m > 0 && c > 0 && mc == m * c
    ensures mc > 0 && (idx % mc) / c == (idx / c) % m && (idx % mc) % c == idx % c
  {
    var q, r := Decompose(idx, c);
    var a, b := Decompose(q, m);
    SlotAndRestOf(idx, m, c, mc, a, b, r);
  }
}
