/**
  RC4 with a fresh state per message, carried out in place on a 256-byte table and the data.
 */
module Rc4 {
  import opened Arith
  import opened Bytes

  // --- Exclusive or ------------------------------------------------------------------------------

  /** Exclusive or of the low `n` bits. */
  function XorBits(a: nat, b: nat, n: nat): nat {
    if n == 0 then 0 else (a % 2 + b % 2) % 2 + 2 * XorBits(a / 2, b / 2, n - 1)
  }

  lemma {:induction false} XorBitsBound(a: nat, b: nat, n: nat)
    ensures XorBits(a, b, n) < Pow(2, n)
  {
    if n > 0 { XorBitsBound(a / 2, b / 2, n - 1); }
  }

  lemma Halves(bit: nat, rest: nat)
    requires bit < 2
    ensures (bit + 2 * rest) / 2 == rest && (bit + 2 * rest) % 2 == bit
  {
  }

  lemma BitTwice(p: nat, q: nat)
    requires p < 2 && q < 2
    ensures ((p + q) % 2 + q) % 2 == p
  {
  }

  lemma XorCons(p: nat, q: nat, a: nat, b: nat, n: nat)
    requires p < 2 && q < 2
    ensures XorBits(p + 2 * a, q + 2 * b, n + 1) == (p + q) % 2 + 2 * XorBits(a, b, n)
  {
    Halves(p, a);
    Halves(q, b);
  }

  lemma XorConsTwice(p: nat, q: nat, a: nat, b: nat, n: nat)
    requires p < 2 && q < 2 && XorBits(XorBits(a, b, n), b, n) == a
    ensures XorBits(XorBits(p + 2 * a, q + 2 * b, n + 1), q + 2 * b, n + 1) == p + 2 * a
  {
    hide XorBits;
    XorCons(p, q, a, b, n);
    XorCons((p + q) % 2, q, XorBits(a, b, n), b, n);
    BitTwice(p, q);
  }

  lemma Recombine(a: nat)
    ensures a == a % 2 + 2 * (a / 2)
  {
  }

  lemma {:induction false} XorBitsTwice(a: nat, b: nat, n: nat)
    requires a < Pow(2, n)
    ensures XorBits(XorBits(a, b, n), b, n) == a
  {
    if n > 0 {
      hide XorBits;
      Recombine(a);
      Recombine(b);
      XorBitsTwice(a / 2, b / 2, n - 1);
      XorConsTwice(a % 2, b % 2, a / 2, b / 2, n - 1);
    }
  }

  lemma EightBits()
    ensures Pow(2, 8) == 256
  {
    PowAdd(2, 4, 4);
    assert Pow(2, 4) == 16;
  }

  function Xor(a: Byte, b: Byte): Byte {
    XorBitsBound(a, b, 8);
    EightBits();
    XorBits(a, b, 8)
  }

  /** Applying the same mask twice restores the byte. */
  lemma XorTwice(a: Byte, b: Byte)
    ensures Xor(Xor(a, b), b) == a
  {
    EightBits();
    XorBitsTwice(a, b, 8);
  }

  /** Addition on `uint8_t`. */
  function Plus(a: Byte, b: Byte): Byte {
    var sum: nat := a;
    (sum + b) % 256
  }

  // --- The cipher --------------------------------------------------------------------------------

  /** The table before the key schedule. */
  function Identity(): (s: seq<Byte>)
    ensures |s| == 256
  {
    seq(256, i requires 0 <= i < 256 => i)
  }

  function Swap(s: seq<Byte>, i: Byte, j: Byte): (t: seq<Byte>)
    requires |s| == 256
    ensures |t| == 256
  {
    s[i := s[j]][j := s[i]]
  }

  /** A table and the two indices into it. */
  datatype State = State(s: seq<Byte>, i: Byte, j: Byte)

  predicate HasTable(c: State) { |c.s| == 256 }

  /** The key schedule after `n` rounds; `i` is not used by it. */
  function Scheduled(key: seq<Byte>, n: nat): (c: State)
    requires key != [] && n <= 256
    ensures HasTable(c)
  {
    if n == 0 then State(Identity(), 0, 0)
    else
      var c := Scheduled(key, n - 1);
      var j := Plus(Plus(c.j, c.s[n - 1]), key[(n - 1) % |key|]);
      State(Swap(c.s, n - 1, j), 0, j)
  }

  /** One byte of output: the indices move, two entries change places. */
  function Next(c: State): (d: State)
    requires HasTable(c)
    ensures HasTable(d)
  {
    var i := Plus(c.i, 1);
    var j := Plus(c.j, c.s[i]);
    State(Swap(c.s, i, j), i, j)
  }

  function Output(c: State): Byte
    requires HasTable(c)
  {
    c.s[Plus(c.s[c.i], c.s[c.j])]
  }

  /** The state after `n` bytes. */
  function After(key: seq<Byte>, n: nat): (c: State)
    requires key != []
    ensures HasTable(c)
  {
    if n == 0 then Scheduled(key, 256).(i := 0, j := 0) else Next(After(key, n - 1))
  }

  /** The keystream depends on the key alone. */
  function Mask(key: seq<Byte>, n: nat): Byte
    requires key != []
  {
    Output(After(key, n + 1))
  }

  function Applied(key: seq<Byte>, data: seq<Byte>): (r: seq<Byte>)
    requires key != []
    ensures |r| == |data|
  {
    seq(|data|, i requires 0 <= i < |data| => Xor(data[i], Mask(key, i)))
  }

  // --- What holds of it --------------------------------------------------------------------------

  predicate IsPermutation(s: seq<Byte>) { |s| == 256 && multiset(s) == multiset(Identity()) }

  lemma SwapPermutes(s: seq<Byte>, i: Byte, j: Byte)
    requires IsPermutation(s)
    ensures IsPermutation(Swap(s, i, j))
  {
  }

  lemma {:induction false} SchedulePermutes(key: seq<Byte>, n: nat)
    requires key != [] && n <= 256
    ensures IsPermutation(Scheduled(key, n).s)
  {
    if n > 0 {
      SchedulePermutes(key, n - 1);
      var c := Scheduled(key, n - 1);
      SwapPermutes(c.s, n - 1, Plus(Plus(c.j, c.s[n - 1]), key[(n - 1) % |key|]));
    }
  }

  lemma NextPermutes(c: State)
    requires IsPermutation(c.s)
    ensures IsPermutation(Next(c).s)
  {
    var i := Plus(c.i, 1);
    SwapPermutes(c.s, i, Plus(c.j, c.s[i]));
  }

  /** Through the key schedule and any amount of output the table stays a permutation of 0..255. */
  lemma {:induction false} TableStaysPermutation(key: seq<Byte>, n: nat)
    requires key != []
    ensures IsPermutation(After(key, n).s)
  {
    hide Next, Scheduled;
    if n == 0 {
      SchedulePermutes(key, 256);
    } else {
      TableStaysPermutation(key, n - 1);
      NextPermutes(After(key, n - 1));
    }
  }

  /** Decryption is encryption. */
  lemma AppliedTwice(key: seq<Byte>, data: seq<Byte>)
    requires key != []
    ensures Applied(key, Applied(key, data)) == data
  {
    forall i | 0 <= i < |data| ensures Applied(key, Applied(key, data))[i] == data[i] {
      XorTwice(data[i], Mask(key, i));
    }
  }

  // --- Every byte of the key counts --------------------------------------------------------------

  lemma PlusCancels(a: Byte, b: Byte, c: Byte)
    requires Plus(a, b) == Plus(a, c)
    ensures b == c
  {
  }

  lemma ScheduledNext(key: seq<Byte>, n: nat)
    requires key != [] && n < 256
    ensures var c := Scheduled(key, n); Scheduled(key, n + 1).j == Plus(Plus(c.j, c.s[n]), key[n % |key|])
  {
  }

  lemma SmallRemainder(n: nat, m: nat)
    requires n < m
    ensures n % m == n
  {
  }

  lemma SameRoundSameByte(a: seq<Byte>, b: seq<Byte>, n: nat)
    requires |a| == |b| && n < |a| <= 256
    requires Scheduled(a, n) == Scheduled(b, n) && Scheduled(a, n + 1) == Scheduled(b, n + 1)
    ensures a[n] == b[n]
  {
    hide Scheduled, Plus;
    var c := Scheduled(a, n);
    SmallRemainder(n, |a|);
    ScheduledNext(a, n);
    ScheduledNext(b, n);
    PlusCancels(Plus(c.j, c.s[n]), a[n], b[n]);
  }

  predicate SameStates(a: seq<Byte>, b: seq<Byte>)
    requires a != [] && b != []
  {
    forall n | 0 <= n <= 256 :: Scheduled(a, n) == Scheduled(b, n)
  }

  /** Two keys of one length pass through the same states of the schedule if and only if they are the same key. */
  lemma KeysByTheirStates(a: seq<Byte>, b: seq<Byte>)
    requires 0 < |a| == |b| <= 256
    ensures a == b <==> SameStates(a, b)
  {
    hide Scheduled;
    if SameStates(a, b) {
      forall n | 0 <= n < |a| ensures a[n] == b[n] {
        assert Scheduled(a, n) == Scheduled(b, n) && Scheduled(a, n + 1) == Scheduled(b, n + 1);
        SameRoundSameByte(a, b, n);
      }
      assert a == b;
    }
  }

  // --- In place ----------------------------------------------------------------------------------

  method SwapEntries(s: array<Byte>, i: Byte, j: Byte)
    requires s.Length == 256
    modifies s
    ensures s[..] == Swap(old(s[..]), i, j)
  {
    s[i], s[j] := s[j], s[i];
  }

  method Schedule(key: seq<Byte>, s: array<Byte>)
    requires key != [] && s.Length == 256
    modifies s
    ensures s[..] == Scheduled(key, 256).s
  {
    hide Swap, Plus;
    for i := 0 to 256
      invariant forall k | 0 <= k < i :: s[k] == k
    {
      s[i] := i;
    }
    assert s[..] == Identity();
    var j: Byte := 0;
    for i := 0 to 256
      invariant s[..] == Scheduled(key, i).s && j == Scheduled(key, i).j
    {
      j := Plus(Plus(j, s[i]), key[i % |key|]);
      SwapEntries(s, i, j);
    }
  }

  /** `rc4_apply` */
  method Apply(key: seq<Byte>, data: array<Byte>)
    requires key != []
    modifies data
    ensures data[..] == Applied(key, old(data[..]))
  {
    hide Swap, Scheduled, Xor, Plus;
    var s := new Byte[256](_ => 0);
    Schedule(key, s);
    ghost var before := data[..];
    var i: Byte := 0;
    var j: Byte := 0;
    for n := 0 to data.Length
      invariant fresh(s) && s.Length == 256
      invariant s[..] == After(key, n).s && i == After(key, n).i && j == After(key, n).j
      invariant forall k | 0 <= k < n :: data[k] == Xor(before[k], Mask(key, k))
      invariant forall k | n <= k < data.Length :: data[k] == before[k]
    {
      i := Plus(i, 1);
      j := Plus(j, s[i]);
      SwapEntries(s, i, j);
      var index := Plus(s[i], s[j]);
      data[n] := Xor(data[n], s[index]);
    }
  }
}
