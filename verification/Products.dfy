/**
 Facts about products, stated on their own to keep them out of larger proofs.
 */
module Products {

  lemma MulMonotone(a: nat, b: nat, c: nat)
    requires a <= b
    ensures a * c <= b * c
  {
  }

  lemma AddOne(q: nat, d: nat)
    ensures (q + 1) * d == q * d + d
  {
  }

  /** The multiple after a smaller one is not beyond a greater one. */
  lemma NextMultiple(p: nat, q: nat, d: nat)
    ensures p < q ==> (p + 1) * d <= q * d
  {
    if p < q {
      MulMonotone(p + 1, q, d);
    }
  }

  /** The quotient is the greatest number whose product fits. */
  lemma AtMostQuotient(p: nat, d: nat, x: nat)
    requires d > 0
    ensures p * d <= x <==> p <= x / d
  {
    var q := x / d;
    AddOne(q, d);
    if p <= q {
      MulMonotone(p, q, d);
    } else {
      MulMonotone(q + 1, p, d);
    }
  }

  /** A multiple and a smaller rest, taken apart again. */
  lemma Division(q: nat, d: nat, r: nat)
    requires r < d
    ensures (q * d + r) / d == q && (q * d + r) % d == r
  {
    var x := q * d + r;
    AtMostQuotient(q, d, x);
    AtMostQuotient(q + 1, d, x);
    AddOne(q, d);
  }
}
