/**
  The unsigned big integer of the key wrap: limb loops with explicit 32- and 64-bit widths, each proved
  to denote the arithmetic it stands for.
 */
module Bigint {
  import opened Arith
  import opened Bytes
  import opened Limbs

  // --- Facts behind the loops --------------------------------------------------------------------

  /** The 64-bit accumulator cannot overflow, and its high half fits a limb again. */
  lemma AccumulatorFits(limb: Limb, x: Limb, y: Limb, carry: Limb)
    ensures limb + x * y + carry < BASE * BASE
  {
    MulMono(x, BASE - 1, y);
    MulMono(y, BASE - 1, BASE - 1);
  }

  /** `c` at limb `k`, and one row of the schoolbook product. */
  function Weighted(c: nat, k: nat): nat { c * P(k) }

  function Row(x: nat, i: nat, v: nat): nat { x * (P(i) * v) }

  lemma RowSum(x: Limb, b: seq<Limb>, i: nat, j: nat)
    requires j < |b|
    ensures Row(x, i, Val(b[..j + 1])) == Row(x, i, Val(b[..j])) + x * (P(i) * (b[j] * P(j)))
  {
    hide Pow, Val;
    ValPrefix(b, j);
    Distrib(Val(b[..j]), b[j] * P(j), P(i));
    Distrib(P(i) * Val(b[..j]), P(i) * (b[j] * P(j)), x);
  }

  /** One round of the inner loop. */
  lemma RowStep(r: seq<Limb>, x: Limb, b: seq<Limb>, carry: Limb, low: Limb, high: Limb, i: nat, j: nat)
    requires j < |b| && i + j < |r| && r[i + j] + x * b[j] + carry == low + BASE * high
    ensures Val(r[i + j := low]) + Weighted(high, i + j + 1) + Row(x, i, Val(b[..j])) ==
            Val(r) + Weighted(carry, i + j) + Row(x, i, Val(b[..j + 1]))
  {
    hide Pow, Val, Row;
    var y := b[j];
    ValUpdate(r, i + j, low);
    PStep(i + j);
    CarryStep(r[i + j], low, high, x * y + carry, BASE, P(i + j));
    Distrib(x * y, carry, P(i + j));
    PowAdd(BASE, i, j);
    Shuffle(x, y, P(i), P(j));
    RowSum(x, b, i, j);
  }

  lemma RowZero(x: nat, i: nat, k: nat)
    ensures Row(x, i, 0) == 0 && Weighted(0, k) == 0
  {
  }

  /** Byte `i` of the input lands in limb `i / 4`. */
  lemma AddByte(l: seq<Limb>, data: seq<Byte>, i: nat)
    requires i < |data| && i / 4 < |l| && l[i / 4] + Placed(data[i], i % 4) < BASE
    requires Val(l) == BytesVal(data[..i])
    ensures Val(l[i / 4 := l[i / 4] + Placed(data[i], i % 4)]) == BytesVal(data[..i + 1])
  {
    hide Pow, Val, BytesVal;
    ByteWeight(data[i], i);
    BytesValPrefix(data, i);
    ValUpdate(l, i / 4, l[i / 4] + Placed(data[i], i % 4));
  }

  lemma LastLimb(l: seq<Limb>, x: Limb)
    ensures Val(l + [x]) == Val(l) + Weighted(x, |l|)
  {
    ValSnoc(l, x);
  }

  lemma LastCarry(r: seq<Limb>, k: nat, carry: Limb)
    requires k < |r| && r[k] == 0
    ensures Val(r[k := carry]) == Val(r) + Weighted(carry, k)
  {
    ValUpdate(r, k, carry);
  }

  lemma ProductStep(a: seq<Limb>, i: nat, v: nat)
    requires i < |a|
    ensures Val(a[..i + 1]) * v == Val(a[..i]) * v + Row(a[i], i, v)
  {
    hide Pow, Val;
    ValPrefix(a, i);
    Distrib(Val(a[..i]), a[i] * P(i), v);
    Assoc(a[i], P(i), v);
  }

  lemma EmptyIsZero()
    ensures Val([]) == 0
  {
  }

  /** Doubling one limb: the top bit moves to the next. */
  lemma DoubleStep(l: seq<Limb>, d: seq<Limb>, i: nat, carry: nat, next: nat)
    requires i < |l| && i < |d| && d[i] + BASE * next == 2 * l[i] + carry
    requires Val(d[..i]) + Weighted(carry, i) == 2 * Val(l[..i])
    ensures Val(d[..i + 1]) + Weighted(next, i + 1) == 2 * Val(l[..i + 1])
  {
    hide Pow, Val;
    ValPrefix(l, i);
    ValPrefix(d, i);
    PStep(i);
    var x: int := l[i];
    CarryStep(0, d[i], next, 2 * x + carry, BASE, P(i));
    Distrib(2 * x, carry, P(i));
    Assoc(2, x, P(i));
  }

  /** Limb `i` of a number, 0 beyond its end. */
  function At(l: seq<Limb>, i: nat): Limb { if i < |l| then l[i] else 0 }

  function Low(l: seq<Limb>, i: nat): nat { if i < |l| then Val(l[..i]) else Val(l) }

  lemma LowStep(l: seq<Limb>, i: nat)
    ensures Low(l, i + 1) == Low(l, i) + At(l, i) * P(i)
  {
    if i < |l| {
      ValPrefix(l, i);
      assert l[..|l|] == l;
    }
  }

  lemma BorrowStep(l: seq<Limb>, b: seq<Limb>, d: seq<Limb>, i: nat, borrow: nat, next: nat)
    requires i < |l| && i < |d| && d[i] - BASE * next == l[i] - borrow - At(b, i)
    requires Val(d[..i]) - Weighted(borrow, i) == Val(l[..i]) - Low(b, i)
    ensures Val(d[..i + 1]) - Weighted(next, i + 1) == Val(l[..i + 1]) - Low(b, i + 1)
  {
    hide Pow, Val;
    ValPrefix(l, i);
    ValPrefix(d, i);
    LowStep(b, i);
    PStep(i);
    var x: int, y: int, z: int, w: int := l[i], d[i], At(b, i), P(i);
    var taken: int, passed: int := 0 - borrow - z, 0 - next;
    CarryStep(x, y, passed, taken, BASE, w);
    Distrib(y, x, w);
    Distrib(0 - borrow, z, w);
    Assoc(-1, borrow, w);
    Assoc(-1, next, BASE * w);
  }

  /** After the last limb nothing is left to borrow. */
  lemma NoBorrowLeft(d: seq<Limb>, l: seq<Limb>, b: nat, borrow: nat)
    requires |d| == |l| && borrow <= 1 && b <= Val(l) && Val(d) - Weighted(borrow, |l|) == Val(l) - b
    ensures borrow == 0
  {
    ValBound(d);
  }

  // --- The object --------------------------------------------------------------------------------

  class BigInt {
    var limbs: seq<Limb>

    ghost predicate Valid()
      reads this
    {
      Trimmed(limbs)
    }

    ghost function Value(): nat
      reads this
    {
      Val(limbs)
    }

    constructor ()
      ensures Valid() && limbs == [] && Value() == 0
    {
      limbs := [];
    }

    static method FromU32(v: Limb) returns (b: BigInt)
      ensures fresh(b) && b.Valid() && b.Value() == v
    {
      b := new BigInt();
      if v != 0 {
        b.limbs := [v];
        ValSnoc([], v);
        assert [] + [v] == [v];
      }
    }

    static method FromLeBytes(data: seq<Byte>) returns (b: BigInt)
      ensures fresh(b) && b.Valid() && b.Value() == BytesVal(data)
    {
      hide Pow, Val, BytesVal, Placed;
      b := new BigInt();
      b.limbs := seq((|data| + 3) / 4, _ => 0);
      ValZeros(b.limbs);
      PowZero();
      assert data[..0] == [] && BytesVal([]) == 0 by { BytesEmpty(); }
      for i := 0 to |data|
        invariant fresh(b) && |b.limbs| == (|data| + 3) / 4
        invariant forall k | 0 <= k < |b.limbs| && i <= 4 * k :: b.limbs[k] == 0
        invariant i < |data| ==> b.limbs[i / 4] < Pow(256, i % 4)
        invariant Val(b.limbs) == BytesVal(data[..i])
      {
        var k := i / 4;
        ByteInto(b.limbs[k], data[i], i % 4);
        AddByte(b.limbs, data, i);
        b.limbs := b.limbs[k := b.limbs[k] + Placed(data[i], i % 4)];
      }
      assert data[..|data|] == data;
      b.Trim();
    }

    static method FromBeBytes(data: seq<Byte>) returns (b: BigInt)
      ensures fresh(b) && b.Valid() && b.Value() == BytesVal(Reverse(data))
    {
      b := FromLeBytes(Reverse(data));
    }

    /** Exactly `size` bytes; higher ones are cut off. */
    method ToLeBytes(size: nat) returns (out: seq<Byte>)
      ensures out == LeBytes(Value(), size)
    {
      hide Pow, Val;
      out := seq(size, _ => 0);
      var i := 0;
      while i < size && i / 4 < |limbs|
        invariant i <= size && |out| == size
        invariant forall k | 0 <= k < i :: out[k] == ByteAt(Value(), k)
        invariant forall k | i <= k < size :: out[k] == 0
      {
        LimbByte(limbs, i);
        out := out[i := ByteAt(limbs[i / 4], i % 4)];
        i := i + 1;
      }
      forall k | i <= k < size ensures ByteAt(Value(), k) == 0 { LimbByte(limbs, k); }
    }

    method Trim()
      modifies this
      ensures Valid() && Value() == old(Value())
    {
      while limbs != [] && limbs[|limbs| - 1] == 0
        invariant Value() == old(Value())
      {
        limbs := limbs[..|limbs| - 1];
      }
    }

    // --- Multiplication --------------------------------------------------------------------------

    /** The 64-bit accumulator, split into the limb to store and the carry. */
    static method Accumulate(limb: Limb, x: Limb, y: Limb, carry: u64) returns (low: Limb, high: u64)
      requires carry < BASE as u64
      ensures high < BASE as u64 && limb + x * y + carry as int == low + BASE * (high as int)
    {
      AccumulatorFits(limb, x, y, carry as int);
      ghost var product := x * y;
      var cur := MultiplyAdd(limb, x, y, carry, product);
      low := (cur % 0x1_0000_0000) as int;
      high := cur / 0x1_0000_0000;
    }

    static method MultiplyAdd(limb: Limb, x: Limb, y: Limb, carry: u64, ghost product: int) returns (cur: u64)
      requires product == x * y && 0 <= product && limb + product + carry as int < BASE * BASE
      ensures cur as int == limb + product + carry as int
    {
      cur := limb as u64 + x as u64 * y as u64 + carry;
    }

    /** One row of the schoolbook product: adds `x * b` at limb `i`. */
    method AddRow(x: Limb, b: seq<Limb>, i: nat)
      requires i + |b| < |limbs| && forall k | i + |b| <= k < |limbs| :: limbs[k] == 0
      modifies this
      ensures |limbs| == |old(limbs)| && forall k | i + |b| < k < |limbs| :: limbs[k] == 0
      ensures Value() == old(Value()) + Row(x, i, Val(b))
    {
      hide Pow, Val, Row, Weighted;
      var carry: u64 := 0;
      EmptyIsZero();
      RowZero(x, i, i);
      assert b[..0] == [];
      for j := 0 to |b|
        invariant |limbs| == |old(limbs)| && carry < BASE as u64
        invariant forall k | i + |b| <= k < |limbs| :: limbs[k] == 0
        invariant Val(limbs) + Weighted(carry as int, i + j) == old(Value()) + Row(x, i, Val(b[..j]))
      {
        var low, high := Accumulate(limbs[i + j], x, b[j], carry);
        RowStep(limbs, x, b, carry as int, low, high as int, i, j);
        limbs := limbs[i + j := low];
        carry := high;
      }
      assert b[..|b|] == b;
      LastCarry(limbs, i + |b|, carry as int);
      limbs := limbs[i + |b| := carry as int];
    }

    static method Mul(a: BigInt, b: BigInt) returns (r: BigInt)
      ensures fresh(r) && r.Valid() && r.Value() == a.Value() * b.Value()
    {
      hide Pow, Val, Row;
      EmptyIsZero();
      r := new BigInt();
      if a.limbs == [] || b.limbs == [] {
        return;
      }
      r.limbs := seq(|a.limbs| + |b.limbs|, _ => 0);
      ValZeros(r.limbs);
      assert a.limbs[..0] == [];
      for i := 0 to |a.limbs|
        invariant fresh(r) && |r.limbs| == |a.limbs| + |b.limbs|
        invariant forall k | i + |b.limbs| <= k < |r.limbs| :: r.limbs[k] == 0
        invariant Val(r.limbs) == Val(a.limbs[..i]) * Val(b.limbs)
      {
        ProductStep(a.limbs, i, Val(b.limbs));
        r.AddRow(a.limbs[i], b.limbs, i);
      }
      assert a.limbs[..|a.limbs|] == a.limbs;
      r.Trim();
    }

    // --- Comparison ------------------------------------------------------------------------------

    /** By limb count first, then from the top limb down: numeric order, since both are trimmed. */
    static method Compare(a: BigInt, b: BigInt) returns (c: int)
      requires a.Valid() && b.Valid()
      ensures c == if a.Value() < b.Value() then -1 else if a.Value() > b.Value() then 1 else 0
    {
      hide Pow, Val;
      if |a.limbs| != |b.limbs| {
        if |a.limbs| < |b.limbs| { ShorterIsSmaller(a.limbs, b.limbs); } else { ShorterIsSmaller(b.limbs, a.limbs); }
        return if |a.limbs| < |b.limbs| then -1 else 1;
      }
      var i := |a.limbs|;
      while i > 0
        invariant 0 <= i <= |a.limbs| && a.limbs[i..] == b.limbs[i..]
      {
        i := i - 1;
        if a.limbs[i] != b.limbs[i] {
          if a.limbs[i] < b.limbs[i] { TopDecides(a.limbs, b.limbs, i); } else { TopDecides(b.limbs, a.limbs, i); }
          return if a.limbs[i] < b.limbs[i] then -1 else 1;
        }
        assert a.limbs[i..] == [a.limbs[i]] + a.limbs[i + 1..] && b.limbs[i..] == [b.limbs[i]] + b.limbs[i + 1..];
      }
      assert a.limbs[0..] == a.limbs && b.limbs[0..] == b.limbs;
      return 0;
    }

    // --- Shift and subtraction -------------------------------------------------------------------

    method Shl1()
      requires Valid()
      modifies this
      ensures Valid() && Value() == 2 * old(Value())
    {
      hide Pow, Val, Weighted;
      EmptyIsZero();
      RowZero(0, 0, 0);
      ghost var l := limbs;
      var carry: Limb := 0;
      assert limbs[..0] == [] && l[..0] == [];
      for i := 0 to |limbs|
        invariant |limbs| == |l| && carry <= 1 && forall k | i <= k < |l| :: limbs[k] == l[k]
        invariant Val(limbs[..i]) + Weighted(carry, i) == 2 * Val(l[..i])
        invariant i > 0 ==> l[i - 1] != 0 ==> limbs[i - 1] != 0 || carry != 0
      {
        var next := limbs[i] / 0x8000_0000;
        var doubled: Limb := (limbs[i] * 2) % BASE + carry;
        ghost var d := limbs[i := doubled];
        assert d[..i] == limbs[..i] && limbs[i] == l[i];
        DoubleStep(l, d, i, carry, next);
        limbs := limbs[i := doubled];
        carry := next;
      }
      assert limbs[..|l|] == limbs && l[..|l|] == l;
      RowZero(0, 0, |l|);
      if carry != 0 {
        LastLimb(limbs, carry);
        limbs := limbs + [carry];
      }
    }

    /** `this -= b`, for `b` not above `this`. */
    method Sub(b: BigInt)
      requires Valid() && b.Valid() && b != this && b.Value() <= Value()
      modifies this
      ensures Valid() && Value() == old(Value()) - b.Value()
    {
      hide Pow, Val, Weighted;
      EmptyIsZero();
      RowZero(0, 0, 0);
      ghost var l := limbs;
      if |b.limbs| > |l| { ShorterIsSmaller(l, b.limbs); }
      var borrow := 0;
      assert limbs[..0] == [] && l[..0] == [] && b.limbs[..0] == [];
      for i := 0 to |limbs|
        invariant |limbs| == |l| && 0 <= borrow <= 1 && forall k | i <= k < |l| :: limbs[k] == l[k]
        invariant b.limbs == old(b.limbs)
        invariant Val(limbs[..i]) - Weighted(borrow, i) == Val(l[..i]) - Low(b.limbs, i)
      {
        var cur := limbs[i] - borrow - At(b.limbs, i);
        var next := if cur < 0 then 1 else 0;
        var limb: Limb := cur + next * BASE;
        ghost var d := limbs[i := limb];
        assert d[..i] == limbs[..i] && limbs[i] == l[i];
        BorrowStep(l, b.limbs, d, i, borrow, next);
        limbs := limbs[i := limb];
        borrow := next;
      }
      assert limbs[..|l|] == limbs && l[..|l|] == l && b.limbs[..|b.limbs|] == b.limbs;
      NoBorrowLeft(limbs, l, Val(b.limbs), borrow);
      RowZero(0, 0, |l|);
      Trim();
    }

    // --- Bits ------------------------------------------------------------------------------------

    method BitLength() returns (bits: nat)
      requires Valid()
      ensures IsBitLength(Value(), bits)
    {
      if limbs == [] {
        return 0;
      }
      var top := limbs[|limbs| - 1];
      bits := 0;
      while top != 0
        invariant top == 0 || IsBitLengthOf(limbs[|limbs| - 1], top, bits)
        invariant top == 0 ==> IsBitLength(limbs[|limbs| - 1], bits)
        decreases top
      {
        HalveTop(limbs[|limbs| - 1], top, bits);
        bits := bits + 1;
        top := top / 2;
      }
      LimbBitLength(limbs, bits);
      bits := (|limbs| - 1) * 32 + bits;
    }

    method TestBit(n: nat) returns (set': bool)
      ensures set' == Bit(Value(), n)
    {
      LimbBit(limbs, n);
      var limb := n / 32;
      PowPositive(2, n % 32);
      return limb < |limbs| && limbs[limb] / Pow(2, n % 32) % 2 == 1;
    }

    // --- Remainder and power ---------------------------------------------------------------------

    /** `limbs[0] |= 1` on an even number, pushing a limb first if there is none. */
    method SetLowBit()
      requires Valid() && Value() % 2 == 0
      modifies this
      ensures Valid() && Value() == old(Value()) + 1
    {
      hide Pow, Val;
      EmptyIsZero();
      if limbs == [] {
        limbs := [0];
        ValSnoc([], 0);
        assert [] + [0] == [0];
      }
      ValCons(limbs);
      assert limbs[0] % 2 == 0;
      var odd: Limb := limbs[0] - limbs[0] % 2 + 1;
      ghost var l := limbs;
      limbs := limbs[0 := odd];
      ValCons(limbs);
      assert limbs[1..] == l[1..];
    }

    /** `a mod m` by binary long division; with `m == 0` nothing is ever taken away. */
    static method Mod(a: BigInt, m: BigInt) returns (r: BigInt)
      requires a.Valid() && m.Valid()
      ensures fresh(r) && r.Valid() && r.Value() == Rem(a.Value(), m.Value())
    {
      hide Pow, Val, Shifted, Rem;
      r := new BigInt();
      var i := a.BitLength();
      ShiftOut(a.Value(), i);
      RemZero(m.Value());
      while i > 0
        invariant fresh(r) && r.Valid() && r.Value() == Rem(Shifted(a.Value(), i), m.Value())
      {
        i := i - 1;
        ShiftNext(a.Value(), i);
        r.Shl1();
        var bit := a.TestBit(i);
        if bit {
          r.SetLowBit();
        }
        RemShift(Shifted(a.Value(), i + 1), if bit then 1 else 0, m.Value());
        var c := Compare(r, m);
        if c >= 0 {
          r.Sub(m);
        }
      }
    }

    /** One round of square and multiply. */
    static method PowRound(result: BigInt, b: BigInt, bit: bool, m: BigInt) returns (r: BigInt)
      requires m.Valid()
      ensures fresh(r) && r.Valid() && r.Value() == SquareMultiply(result.Value(), b.Value(), bit, m.Value())
    {
      hide Pow, Val, Rem;
      var square := Mul(result, result);
      r := Mod(square, m);
      if bit {
        var product := Mul(r, b);
        r := Mod(product, m);
      }
    }

    /** Square and multiply over the bits of `exp`, from the top. */
    static method ModPow(base: BigInt, exp: BigInt, m: BigInt) returns (result: BigInt)
      requires base.Valid() && exp.Valid() && m.Valid()
      ensures fresh(result) && result.Valid()
      ensures result.Value() == if exp.Value() == 0 then 1 else Rem(Pow(base.Value(), exp.Value()), m.Value())
    {
      hide Pow, Val, Rem, PowMod, Shifted, SquareMultiply;
      result := FromU32(1);
      var b := Mod(base, m);
      var i := exp.BitLength();
      ghost var e := exp.Value();
      ShiftOut(e, i);
      PowModIs(base.Value(), 0, m.Value());
      while i > 0
        invariant fresh(result) && result.Valid() && b.Value() == Rem(base.Value(), m.Value())
        invariant result.Value() == PowMod(base.Value(), Shifted(e, i), m.Value())
        invariant i > 0 ==> Shifted(e, i - 1) >= 1
      {
        i := i - 1;
        ShiftNext(e, i);
        var bit := exp.TestBit(i);
        PowModStep(base.Value(), Shifted(e, i + 1), bit, m.Value());
        result := PowRound(result, b, bit, m);
        if i > 0 { ShiftNext(e, i - 1); }
      }
      PowModIs(base.Value(), e, m.Value());
    }
  }

  // --- Facts behind the bit loops ----------------------------------------------------------------

  lemma PowZero()
    ensures Pow(2, 0) == 1 && Pow(256, 0) == 1
  {
  }

  lemma BytesEmpty()
    ensures BytesVal([]) == 0
  {
  }

  /** After `bits` halvings `top` is what is left of `limb`. */
  ghost predicate IsBitLengthOf(limb: nat, top: nat, bits: nat) {
    limb >= top * Pow(2, bits) && limb < (top + 1) * Pow(2, bits)
  }

  lemma HalveTop(limb: nat, top: nat, bits: nat)
    requires top > 0 && IsBitLengthOf(limb, top, bits)
    ensures top / 2 > 0 ==> IsBitLengthOf(limb, top / 2, bits + 1)
    ensures top / 2 == 0 ==> IsBitLength(limb, bits + 1)
  {
    PowPositive(2, bits);
    var p := Pow(2, bits);
    assert Pow(2, bits + 1) == 2 * p;
    Assoc(top / 2, 2, p);
    Assoc(top / 2 + 1, 2, p);
    MulMono(2 * (top / 2), top, p);
    MulMono(top + 1, 2 * (top / 2 + 1), p);
  }

  /** One step of long division. */
  lemma RemShift(q: nat, bit: nat, m: nat)
    requires bit <= 1
    ensures var r := 2 * Rem(q, m) + bit;
            Rem(2 * q + bit, m) == if r >= m then r - m else r
  {
    if m > 0 {
      var k, r := q / m, q % m;
      var x := 2 * r + bit;
      Assoc(2, k, m);
      Distrib(2 * k, 1, m);
      if x >= m { DivModUnique(2 * q + bit, m, 2 * k + 1, x - m); } else { DivModUnique(2 * q + bit, m, 2 * k, x); }
    }
  }

  /** What the power loop computes: 1 before the first bit, the reduced power from then on. */
  function PowMod(base: nat, e: nat, m: nat): nat { if e == 0 then 1 else Rem(Pow(base, e), m) }

  lemma PowModIs(base: nat, e: nat, m: nat)
    ensures PowMod(base, e, m) == if e == 0 then 1 else Rem(Pow(base, e), m)
  {
  }

  /** Where that is not the power: modulo 1 every number is 0, but the loop that never runs leaves 1. */
  lemma PowModOfOne(base: nat)
    ensures PowMod(base, 0, 1) == 1 && Pow(base, 0) % 1 == 0
  {
  }

  /** ... and nowhere else. */
  lemma PowModExactly(base: nat, e: nat, m: nat)
    requires m > 0
    ensures PowMod(base, e, m) == Pow(base, e) % m <==> !(e == 0 && m == 1)
  {
    if e == 0 && m > 1 { DivModUnique(1, m, 0, 1); }
  }

  function SquareMultiply(x: nat, b: nat, bit: bool, m: nat): nat {
    var sq := Rem(x * x, m);
    if bit then Rem(sq * b, m) else sq
  }

  lemma PowModStep(base: nat, e: nat, bit: bool, m: nat)
    requires bit || e > 0
    ensures SquareMultiply(PowMod(base, e, m), Rem(base, m), bit, m) == PowMod(base, 2 * e + if bit then 1 else 0, m)
  {
    var x := PowMod(base, e, m);
    var sq := Rem(x * x, m);
    PowAdd(base, e, e);
    assert sq == Rem(Pow(base, 2 * e), m) by {
      if e > 0 { RemMulBoth(Pow(base, e), Pow(base, e), m); }
    }
    if bit {
      RemMulBoth(Pow(base, 2 * e), base, m);
      PowAdd(base, 2 * e, 1);
    }
  }

  lemma RemZero(m: nat)
    ensures Rem(0, m) == 0
  {
  }
}
