/**
  Little-endian sequences of 32-bit limbs and the numbers they denote.
 */
module Limbs {
  import opened Arith
  import opened Bytes

  const BASE: nat := 0x1_0000_0000

  /** `uint32_t` */
  type Limb = x: nat | x < BASE

  /** `uint64_t`: every operation on it is checked to stay in range. */
  newtype u64 = x: int | 0 <= x < 0x1_0000_0000_0000_0000

  function P(n: nat): nat { Pow(BASE, n) }

  function Val(l: seq<Limb>): nat {
    if l == [] then 0 else Val(l[..|l| - 1]) + l[|l| - 1] * P(|l| - 1)
  }

  /** No leading zero limb: the form every bigint is kept in. */
  predicate Trimmed(l: seq<Limb>) { l == [] || l[|l| - 1] != 0 }

  lemma PStep(n: nat)
    ensures P(n + 1) == BASE * P(n) && P(n) > 0
  {
    PowPositive(BASE, n);
  }

  lemma ValSnoc(l: seq<Limb>, x: Limb)
    ensures Val(l + [x]) == Val(l) + x * P(|l|)
  {
    assert (l + [x])[..|l|] == l;
  }

  lemma ValPrefix(l: seq<Limb>, i: nat)
    requires i < |l|
    ensures Val(l[..i + 1]) == Val(l[..i]) + l[i] * P(i)
  {
    assert l[..i + 1][..i] == l[..i];
  }

  lemma {:induction false} ValBound(l: seq<Limb>)
    ensures Val(l) < P(|l|)
  {
    if l != [] {
      var k := |l| - 1;
      ValBound(l[..k]);
      PStep(k);
      MulMono(l[k], BASE - 1, P(k));
      Distrib(BASE, 1, P(k));
    }
  }

  /** A trimmed number has at least the weight of its top limb. */
  lemma ValTop(l: seq<Limb>)
    requires l != [] && Trimmed(l)
    ensures Val(l) >= P(|l| - 1) && Val(l) > 0
  {
    PStep(|l| - 1);
    MulMono(1, l[|l| - 1], P(|l| - 1));
  }

  lemma ValEmpty(x: nat)
    ensures Val([]) == 0 && x * Val([]) == 0
  {
  }

  lemma PSplit(i: nat, k: nat)
    requires i <= k
    ensures P(k) == P(i) * P(k - i)
  {
    PowAdd(BASE, i, k - i);
  }

  /** Splitting at limb `i`. */
  lemma {:induction false} ValSplit(l: seq<Limb>, i: nat)
    requires i <= |l|
    ensures Val(l) == Val(l[..i]) + P(i) * Val(l[i..])
    decreases |l|
  {
    hide Pow, Val, P;
    if i == |l| {
      assert l[..i] == l && l[i..] == [];
      ValEmpty(P(i));
    } else {
      var k := |l| - 1;
      var init := l[..k];
      ValSplit(init, i);
      assert init[..i] == l[..i] && l[i..] == init[i..] + [l[k]] && l == init + [l[k]];
      ValSnoc(init[i..], l[k]);
      ValSnoc(init, l[k]);
      PSplit(i, k);
      Regroup(P(i), Val(init[i..]), l[k], P(k - i));
    }
  }

  /** Overwriting limb `k`. */
  lemma ValUpdate(l: seq<Limb>, k: nat, x: Limb)
    requires k < |l|
    ensures Val(l[k := x]) == Val(l) + (x - l[k]) * P(k)
  {
    var u := l[k := x];
    ValSplit(l, k + 1);
    ValSplit(u, k + 1);
    assert u[k + 1..] == l[k + 1..] && u[..k] == l[..k];
    ValPrefix(l, k);
    ValPrefix(u, k);
    Distrib(x, l[k], P(k));
  }

  lemma {:induction false} ValZeros(l: seq<Limb>)
    requires forall i | 0 <= i < |l| :: l[i] == 0
    ensures Val(l) == 0
  {
    if l != [] { ValZeros(l[..|l| - 1]); }
  }

  /** Fewer limbs, smaller number: what makes comparison by limb count right. */
  lemma ShorterIsSmaller(a: seq<Limb>, b: seq<Limb>)
    requires Trimmed(b) && |a| < |b|
    ensures Val(a) < Val(b)
  {
    ValBound(a);
    ValTop(b);
    PMono(|a|, |b| - 1);
  }

  lemma {:induction false} PMono(i: nat, j: nat)
    requires i <= j
    ensures P(i) <= P(j)
  {
    if i < j { PMono(i, j - 1); PStep(j - 1); }
  }

  /** The highest differing limb decides. */
  lemma TopDecides(a: seq<Limb>, b: seq<Limb>, i: nat)
    requires |a| == |b| && i < |a| && a[i + 1..] == b[i + 1..] && a[i] < b[i]
    ensures Val(a) < Val(b)
  {
    hide Pow, Val;
    ValSplit(a, i + 1);
    ValSplit(b, i + 1);
    ValPrefix(a, i);
    ValPrefix(b, i);
    ValBound(a[..i]);
    var x: nat, y: nat := a[i], b[i];
    MulMono(x + 1, y, P(i));
    Distrib(x, 1, P(i));
  }

  // --- Bits --------------------------------------------------------------------------------------

  lemma PIsPow2(n: nat)
    ensures P(n) == Pow(2, 32 * n)
  {
    assert Pow(2, 32) == BASE by { PowAdd(2, 16, 16); PowAdd(2, 8, 8); }
    PowPow(2, 32, n);
  }

  /** `v >> n` */
  function Shifted(v: nat, n: nat): nat { PowPositive(2, n); v / Pow(2, n) }

  /** Bit `n` of a number. */
  predicate Bit(v: nat, n: nat) { Shifted(v, n) % 2 == 1 }

  lemma ValCons(l: seq<Limb>)
    requires l != []
    ensures Val(l) == l[0] + BASE * Val(l[1..])
  {
    ValSplit(l, 1);
    ValPrefix(l, 0);
    assert l[..0] == [];
    assert P(0) == 1 && P(1) == BASE * P(0);
  }

  lemma SplitAtLimb(l: seq<Limb>, k: nat)
    requires k < |l|
    ensures P(k) > 0 && Val(l) / P(k) == l[k] + BASE * Val(l[k + 1..])
  {
    hide Pow, Val;
    PStep(k);
    ValSplit(l, k);
    ValBound(l[..k]);
    ValCons(l[k..]);
    assert l[k..][1..] == l[k + 1..];
    DivModUnique(Val(l), P(k), Val(l[k..]), Val(l[..k]));
  }

  /** The bit tested in limb `n / 32` is bit `n` of the number. */
  lemma LimbBit(l: seq<Limb>, n: nat)
    ensures n / 32 >= |l| ==> !Bit(Val(l), n)
    ensures n / 32 < |l| ==> (Bit(Val(l), n) <==> Bit(l[n / 32], n % 32))
  {
    hide Pow, Val;
    var k, s := n / 32, n % 32;
    PIsPow2(k);
    PowAdd(2, 32 * k, s);
    PowPositive(2, s);
    PowPositive(2, 32 * k);
    if k >= |l| {
      ValBound(l);
      PMono(|l|, k);
      MulMono(1, Pow(2, s), P(k));
      PowPositive(2, n);
      DivModUnique(Val(l), Pow(2, n), 0, Val(l));
    } else {
      SplitAtLimb(l, k);
      DivDiv(Val(l), P(k), Pow(2, s));
      EvenSteps(l[k], Val(l[k + 1..]), s);
    }
  }

  lemma BaseIsEven()
    ensures Pow(2, 31) * 2 == BASE
  {
    PowAdd(2, 31, 1);
    PowAdd(2, 16, 16);
    PowAdd(2, 8, 8);
  }

  /** Limbs above the tested one add an even number. */
  lemma EvenSteps(x: nat, hi: nat, s: nat)
    requires s < 32
    ensures Pow(2, s) > 0 && (x + BASE * hi) / Pow(2, s) % 2 == x / Pow(2, s) % 2
  {
    hide Pow;
    PowPositive(2, s);
    PowAdd(2, s, 31 - s);
    BaseIsEven();
    Halve(Pow(2, s), Pow(2, 31 - s), hi);
    DivAddMultiple(x, Pow(2, s), 2 * (Pow(2, 31 - s) * hi));
  }

  /** `bits` is the length of `v` in binary. */
  predicate IsBitLength(v: nat, bits: nat) {
    if v == 0 then bits == 0 else bits > 0 && Pow(2, bits - 1) <= v < Pow(2, bits)
  }

  lemma LimbBitLength(l: seq<Limb>, bits: nat)
    requires l != [] && Trimmed(l) && IsBitLength(l[|l| - 1], bits)
    ensures IsBitLength(Val(l), (|l| - 1) * 32 + bits)
  {
    hide Pow, Val, P;
    var k := |l| - 1;
    var top: nat := l[k];
    ValBound(l[..k]);
    ValTop(l);
    ValPrefix(l, k);
    assert l[..k + 1] == l;
    PIsPow2(k);
    PowAdd(2, 32 * k, bits);
    PowAdd(2, 32 * k, bits - 1);
    TopBetween(Val(l[..k]), top, P(k), Pow(2, bits - 1), Pow(2, bits));
  }

  lemma TopBetween(low: nat, top: nat, weight: nat, least: nat, limit: nat)
    requires low < weight && least <= top < limit
    ensures weight * least <= low + top * weight < weight * limit
  {
    MulMono(least, top, weight);
    MulMono(top + 1, limit, weight);
    Distrib(top, 1, weight);
  }

  /** Shifting right by one less brings in the next bit. */
  lemma ShiftNext(v: nat, i: nat)
    ensures Shifted(v, i) == 2 * Shifted(v, i + 1) + if Bit(v, i) then 1 else 0
  {
    PowPositive(2, i);
    PowPositive(2, i + 1);
    PowAdd(2, i, 1);
    assert Pow(2, i + 1) == Pow(2, i) * 2;
    DivDiv(v, Pow(2, i), 2);
  }

  lemma ShiftOut(v: nat, bits: nat)
    requires IsBitLength(v, bits)
    ensures Shifted(v, bits) == 0 && (bits > 0 ==> Shifted(v, bits - 1) == 1)
    ensures Shifted(v, 0) == v
  {
    PowPositive(2, bits);
    DivModUnique(v, Pow(2, bits), 0, v);
    if bits > 0 {
      PowPositive(2, bits - 1);
      DivModUnique(v, Pow(2, bits - 1), 1, v - Pow(2, bits - 1));
    }
  }

  // --- Bytes -------------------------------------------------------------------------------------

  lemma Pow256()
    ensures Pow(256, 1) == 256 && Pow(256, 2) == 0x1_0000 && Pow(256, 3) == 0x100_0000 && Pow(256, 4) == BASE
  {
    PowAdd(256, 2, 2);
  }

  lemma PIsPow256(n: nat)
    ensures P(n) == Pow(256, 4 * n)
  {
    Pow256();
    PowPow(256, 4, n);
  }

  /** `x << (8 * s)` */
  function Placed(x: nat, s: nat): nat { x * Pow(256, s) }

  /** A byte shifted into the empty part of a limb fits, so `|` there is addition. */
  lemma ByteInto(limb: nat, x: Byte, s: nat)
    requires s < 4 && limb < Pow(256, s)
    ensures limb + Placed(x, s) < Pow(256, s + 1) <= BASE
  {
    Pow256();
    MulMono(x, 255, Pow(256, s));
  }

  lemma ByteWeightAt(x: nat, k: nat, s: nat)
    ensures Placed(x, s) * P(k) == x * Pow(256, s + 4 * k)
  {
    hide Pow;
    var p, q := Pow(256, s), Pow(256, 4 * k);
    assert P(k) == q by { PIsPow256(k); }
    assert Pow(256, s + 4 * k) == p * q by { PowAdd(256, s, 4 * k); }
    assert (x * p) * q == x * (p * q) by { Assoc(x, p, q); }
  }

  lemma ByteWeight(x: nat, i: nat)
    ensures Placed(x, i % 4) * P(i / 4) == x * Pow(256, i)
  {
    hide Pow, Placed, P;
    ByteWeightAt(x, i / 4, i % 4);
  }

  /** The byte taken from limb `i / 4` is byte `i` of the number. */
  lemma LimbByte(l: seq<Limb>, i: nat)
    ensures i / 4 >= |l| ==> ByteAt(Val(l), i) == 0
    ensures i / 4 < |l| ==> ByteAt(Val(l), i) == ByteAt(l[i / 4], i % 4)
  {
    hide Pow, Val;
    var k, s := i / 4, i % 4;
    PIsPow256(k);
    PowAdd(256, 4 * k, s);
    PowPositive(256, s);
    PowPositive(256, 4 * k);
    if k >= |l| {
      ValBound(l);
      PMono(|l|, k);
      MulMono(1, Pow(256, s), P(k));
      PowPositive(256, i);
      DivModUnique(Val(l), Pow(256, i), 0, Val(l));
    } else {
      SplitAtLimb(l, k);
      DivDiv(Val(l), P(k), Pow(256, s));
      HigherLimbs(l[k], Val(l[k + 1..]), s);
    }
  }

  lemma HigherLimbs(x: nat, hi: nat, s: nat)
    requires s < 4
    ensures ByteAt(x + BASE * hi, s) == ByteAt(x, s)
  {
    hide Pow;
    Pow256();
    TopByteAbove(x, hi, s, 4);
  }
}
