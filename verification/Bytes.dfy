/**
  Bytes and the little-endian numbers they spell.
 */
module Bytes {
  import opened Arith

  /** A value, or the exception or error code that took its place. */
  datatype Result<+T> = Ok(value: T) | Err(error: string)

  /** `uint8_t` */
  type Byte = x: nat | x < 256

  function BytesVal(b: seq<Byte>): nat {
    if b == [] then 0 else BytesVal(b[..|b| - 1]) + b[|b| - 1] * Pow(256, |b| - 1)
  }

  /** Byte `i` of `v`. */
  function ByteAt(v: nat, i: nat): Byte { PowPositive(256, i); v / Pow(256, i) % 256 }

  /** The low `n` bytes of `v`, least significant first. */
  function LeBytes(v: nat, n: nat): (b: seq<Byte>)
    ensures |b| == n
  {
    seq(n, i requires 0 <= i < n => ByteAt(v, i))
  }

  function Reverse<T>(s: seq<T>): (r: seq<T>)
    ensures |r| == |s|
  {
    seq(|s|, i requires 0 <= i < |s| => s[|s| - 1 - i])
  }

  lemma ReverseTwice<T>(s: seq<T>)
    ensures Reverse(Reverse(s)) == s
  {
  }

  lemma BytesValPrefix(b: seq<Byte>, i: nat)
    requires i < |b|
    ensures BytesVal(b[..i + 1]) == BytesVal(b[..i]) + b[i] * Pow(256, i)
  {
    assert b[..i + 1][..i] == b[..i];
  }

  lemma {:induction false} BytesValBound(b: seq<Byte>)
    ensures BytesVal(b) < Pow(256, |b|)
  {
    if b != [] {
      var k := |b| - 1;
      BytesValBound(b[..k]);
      MulMono(b[k], 255, Pow(256, k));
    }
  }

  /** Byte `i` of the number a byte string spells is its `i`-th byte. */
  lemma {:induction false} ByteOfVal(b: seq<Byte>, i: nat)
    requires i < |b|
    ensures ByteAt(BytesVal(b), i) == b[i]
    decreases |b|
  {
    hide Pow;
    var k := |b| - 1;
    var low, top := BytesVal(b[..k]), b[k];
    PowPositive(256, i);
    BytesValBound(b[..k]);
    if i == k {
      DivModUnique(BytesVal(b), Pow(256, k), top, low);
    } else {
      ByteOfVal(b[..k], i);
      TopByteAbove(low, top, i, k);
    }
  }

  /** A higher byte does not disturb byte `i`. */
  lemma TopByteAbove(low: nat, top: nat, i: nat, k: nat)
    requires i < k
    ensures ByteAt(low + top * Pow(256, k), i) == ByteAt(low, i)
  {
    hide Pow;
    PowPositive(256, i);
    PowAdd(256, i, k - i);
    PowAdd(256, k - i - 1, 1);
    PowOneIs256();
    AboveByte(low, top, Pow(256, i), Pow(256, k - i - 1));
  }

  lemma AboveByte(low: nat, top: nat, p: nat, q: nat)
    requires p > 0
    ensures (low + top * (p * (q * 256))) / p % 256 == low / p % 256
  {
    var t := (top * q) * 256;
    assert top * (p * (q * 256)) == t * p by {
      Assoc(p, q, 256);
      Assoc(top, q, 256);
      Assoc(top, q * 256, p);
    }
    DivAddMultiple(low, p, t);
    DivAddMultiple(low / p, 256, top * q);
  }

  lemma PowOneIs256()
    ensures Pow(256, 1) == 256
  {
  }

  /** Spelling a byte string's number gives the byte string back. */
  lemma SpellVal(b: seq<Byte>)
    ensures LeBytes(BytesVal(b), |b|) == b
  {
    forall i | 0 <= i < |b| ensures LeBytes(BytesVal(b), |b|)[i] == b[i] { ByteOfVal(b, i); }
  }

  /** The number spelled by the low `n` bytes is the remainder modulo 256^n. */
  lemma {:induction false} ValSpell(v: nat, n: nat)
    ensures Pow(256, n) > 0 && BytesVal(LeBytes(v, n)) == v % Pow(256, n)
  {
    hide Pow;
    PowPositive(256, n);
    if n == 0 {
      PowPositive(256, 0);
      assert Pow(256, 0) == 1 by { PowAdd(256, 0, 0); }
    } else {
      ValSpell(v, n - 1);
      var p := Pow(256, n - 1);
      assert LeBytes(v, n)[..n - 1] == LeBytes(v, n - 1);
      PowAdd(256, n - 1, 1);
      PowOneIs256();
      DigitStep(v, p);
    }
  }

  lemma DigitStep(v: nat, p: nat)
    requires p > 0
    ensures p * 256 > 0 && v % (p * 256) == v % p + (v / p % 256) * p
  {
    var q, r := v / p, v % p;
    var a, d := q / 256, q % 256;
    assert v == q * p + r && q == a * 256 + d;
    Distrib(a * 256, d, p);
    Assoc(a, 256, p);
    MulMono(d, 255, p);
    MulMono(0, d, p);
    DivModUnique(v, p * 256, a, d * p + r);
  }

  lemma ValSpellFits(v: nat, n: nat)
    requires v < Pow(256, n)
    ensures BytesVal(LeBytes(v, n)) == v
  {
    ValSpell(v, n);
    DivModUnique(v, Pow(256, n), 0, v);
  }

  /** A leading zero byte (most significant) adds nothing. */
  lemma TopZero(b: seq<Byte>)
    requires b != [] && b[|b| - 1] == 0
    ensures BytesVal(b) < Pow(256, |b| - 1)
  {
    BytesValBound(b[..|b| - 1]);
  }
}
