/**
  Powers, division and remainders, in the few forms the big-number proofs need.
 */
module Arith {

  function Pow(b: nat, e: nat): nat { if e == 0 then 1 else b * Pow(b, e - 1) }

  lemma {:induction false} PowPositive(b: nat, e: nat)
    requires b > 0
    ensures Pow(b, e) > 0
  {
    if e > 0 { PowPositive(b, e - 1); MulPositive(b, Pow(b, e - 1)); }
  }

  lemma MulPositive(x: int, y: int)
    requires x > 0 && y > 0
    ensures x * y > 0
  {
  }

  lemma {:induction false} PowAdd(b: nat, x: nat, y: nat)
    ensures Pow(b, x + y) == Pow(b, x) * Pow(b, y)
  {
    if x > 0 {
      PowAdd(b, x - 1, y);
      Assoc(b, Pow(b, x - 1), Pow(b, y));
    }
  }

  lemma Assoc(x: int, y: int, z: int)
    ensures (x * y) * z == x * (y * z)
  {
  }

  lemma Distrib(x: int, y: int, z: int)
    ensures (x + y) * z == x * z + y * z
    ensures (x - y) * z == x * z - y * z
  {
  }

  lemma MulMono(x: int, y: int, z: int)
    requires x <= y && z >= 0
    ensures x * z <= y * z
  {
  }

  lemma Regroup(p: int, hi: int, x: int, q: int)
    ensures p * hi + x * (p * q) == p * (hi + x * q)
  {
    Assoc(x, p, q);
    Assoc(p, x, q);
    Distrib(hi, x * q, p);
  }

  lemma Halve(p: int, q: int, hi: int)
    ensures (p * q) * 2 * hi == (2 * (q * hi)) * p
  {
    Assoc(p, q, 2 * hi);
    Assoc(q, 2, hi);
    Assoc(p * q, 2, hi);
  }

  /** Replacing a digit and passing on a carry keeps the total. */
  lemma CarryStep(before: int, after: int, carry: int, added: int, base: int, weight: int)
    requires before + added == after + base * carry
    ensures (after - before) * weight + carry * (base * weight) == added * weight
  {
    Assoc(carry, base, weight);
    Distrib(after - before, carry * base, weight);
    assert after - before + carry * base == added;
  }

  lemma Shuffle(x: int, b: int, p: int, q: int)
    ensures (x * b) * (p * q) == x * (p * (b * q))
  {
    Assoc(x, b, p * q);
    Assoc(b, p, q);
    Assoc(p, b, q);
  }

  /** Powers of powers. */
  lemma {:induction false} PowPow(b: nat, x: nat, y: nat)
    ensures Pow(Pow(b, x), y) == Pow(b, x * y)
  {
    if y > 0 {
      PowPow(b, x, y - 1);
      PowAdd(b, x, x * (y - 1));
      assert x * y == x + x * (y - 1);
    }
  }

  lemma {:induction false} PowOne(e: nat)
    ensures Pow(1, e) == 1
  {
    if e > 0 { PowOne(e - 1); }
  }

  // --- Division ----------------------------------------------------------------------------------

  /** A quotient and remainder are the quotient and the remainder. */
  lemma DivModUnique(x: int, d: int, q: int, r: int)
    requires d > 0 && 0 <= r < d && x == q * d + r
    ensures x / d == q && x % d == r
  {
    var q', r' := x / d, x % d;
    assert x == q' * d + r';
    Distrib(q, q', d);
    if q > q' { MulMono(1, q - q', d); }
    if q < q' { MulMono(1, q' - q, d); Distrib(q', q, d); }
  }

  lemma DivAddMultiple(x: int, d: int, k: int)
    requires d > 0
    ensures (x + k * d) / d == x / d + k && (x + k * d) % d == x % d
  {
    Distrib(x / d, k, d);
    DivModUnique(x + k * d, d, x / d + k, x % d);
  }

  /** Dividing twice is dividing by the product. */
  lemma DivDiv(x: nat, a: nat, b: nat)
    requires a > 0 && b > 0
    ensures a * b > 0 && x / (a * b) == x / a / b
  {
    MulPositive(a, b);
    var y := x / a;
    var q, r, s := y / b, y % b, x % a;
    assert x == y * a + s;
    assert y == q * b + r;
    Distrib(q * b, r, a);
    Assoc(q, b, a);
    MulMono(r, b - 1, a);
    MulMono(0, r, a);
    Distrib(b, 1, a);
    DivModUnique(x, a * b, q, r * a + s);
  }

  // --- Remainders --------------------------------------------------------------------------------

  /** Remainder with the convention the long division follows: dividing by 0 leaves the number alone. */
  function Rem(x: nat, m: nat): nat { if m == 0 then x else x % m }

  lemma RemMul(x: nat, y: nat, m: nat)
    ensures Rem(Rem(x, m) * y, m) == Rem(x * y, m)
  {
    if m > 0 {
      var q, r := x / m, x % m;
      Distrib(q * m, r, y);
      Assoc(q, m, y);
      Assoc(q, y, m);
      assert x * y == r * y + (q * y) * m by { assert q * (m * y) == (q * y) * m by { Assoc(q, y, m); } }
      DivAddMultiple(r * y, m, q * y);
    }
  }

  lemma RemMulBoth(x: nat, y: nat, m: nat)
    ensures Rem(Rem(x, m) * Rem(y, m), m) == Rem(x * y, m)
  {
    RemMul(x, Rem(y, m), m);
    assert x * Rem(y, m) == Rem(y, m) * x && x * y == y * x;
    RemMul(y, x, m);
  }

  lemma RemIdempotent(x: nat, m: nat)
    ensures Rem(Rem(x, m), m) == Rem(x, m)
  {
    RemMul(x, 1, m);
  }

  /** The base of a power may be reduced first. */
  lemma {:induction false} RemPow(x: nat, e: nat, m: nat)
    ensures Rem(Pow(Rem(x, m), e), m) == Rem(Pow(x, e), m)
  {
    if e > 0 {
      var y := Rem(x, m);
      RemPow(x, e - 1, m);
      RemMulBoth(y, Pow(y, e - 1), m);
      RemMulBoth(x, Pow(x, e - 1), m);
      RemIdempotent(x, m);
    }
  }
}
