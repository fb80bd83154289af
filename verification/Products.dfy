/** Products of natural numbers. */
module Products {

  lemma {:induction false} MulGrows(x: nat, k: nat)
    requires k > 0
    ensures x * k >= x
  {
    assert x * k == x + x * (k - 1);
  }

  lemma {:induction false} MulLess(x: nat, y: nat, k: nat)
    requires x < y && k > 0
    ensures x * k < y * k
  {
    assert y * k == x * k + (y - x) * k;
    MulGrows(k, y - x);
  }

  lemma {:induction false} MulAssoc(a: nat, b: nat, c: nat)
    ensures a * b * c == a * (b * c)
  {
  }
}
