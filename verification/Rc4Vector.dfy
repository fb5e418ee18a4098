/**
  A published key stream: the first bytes for the key 01 02 03 04 05 in section 2 of RFC 6229.  The key schedule is
  followed eight rounds at a time; a round finds an entry at its own place and moves the index.
 */
module Rc4Vector {
  import opened Arith
  import opened Bytes
  import opened Rc4

  const KEY: seq<Byte> := [1, 2, 3, 4, 5]

  /** The states of a key schedule, one after each round. */
  type Trace = t: seq<State> | |t| == 257 && forall n | 0 <= n < 257 :: HasTable(t[n])
    witness seq(257, _ => State(Identity(), 0, 0))

  function Entry(t: Trace, n: nat, p: int): int { if n <= 256 && 0 <= p < 256 then t[n].s[p] else 0 }

  function Index(t: Trace, n: nat): int { if n <= 256 then t[n].j else 0 }

  function Moved(j: int, a: int, n: int): int { (j + a + n % 5 + 1) % 256 }

  /** One round for `KEY`. */
  ghost predicate Turns(t: Trace, n: nat) {
    && Index(t, n + 1) == Moved(Index(t, n), Entry(t, n, n), n)
    && forall p | 0 <= p < 256 ::
         Entry(t, n + 1, p) == if p == Index(t, n + 1) then Entry(t, n, n)
                               else if p == n then Entry(t, n, Index(t, n + 1)) else Entry(t, n, p)
  }

  ghost predicate Runs(t: Trace) {
    && Index(t, 0) == 0 && (forall p | 0 <= p < 256 :: Entry(t, 0, p) == p)
    && forall n | 0 <= n < 256 :: Turns(t, n)
  }

  // --- Eight rounds ------------------------------------------------------------------------------

  /** Round `k` finds `a<k>` at its own place and moves the index to `j<k>`. */
  datatype Eight = Eight(
    a0: int, j0: int, a1: int, j1: int, a2: int, j2: int, a3: int, j3: int,
    a4: int, j4: int, a5: int, j5: int, a6: int, j6: int, a7: int, j7: int)

  function Put(p: int, a: int, j: int, u: int): int { if p == j then a else u }

  /** That is what the rounds from `n` on do, the index standing at `j`. */
  ghost predicate Fits(t: Trace, n: nat, j: int, d: Eight) {
    && Index(t, n) == j
    && d.a0 == Entry(t, n, n)
    && d.j0 == Moved(j, d.a0, n)
    && d.a1 == Put(n + 1, d.a0, d.j0, Entry(t, n, n + 1))
    && d.j1 == Moved(d.j0, d.a1, n + 1)
    && d.a2 == Put(n + 2, d.a1, d.j1, Put(n + 2, d.a0, d.j0, Entry(t, n, n + 2)))
    && d.j2 == Moved(d.j1, d.a2, n + 2)
    && d.a3 == Put(n + 3, d.a2, d.j2, Put(n + 3, d.a1, d.j1, Put(n + 3, d.a0, d.j0, Entry(t, n, n + 3))))
    && d.j3 == Moved(d.j2, d.a3, n + 3)
    && d.a4 == Put(n + 4, d.a3, d.j3, Put(n + 4, d.a2, d.j2, Put(n + 4, d.a1, d.j1,
         Put(n + 4, d.a0, d.j0, Entry(t, n, n + 4)))))
    && d.j4 == Moved(d.j3, d.a4, n + 4)
    && d.a5 == Put(n + 5, d.a4, d.j4, Put(n + 5, d.a3, d.j3, Put(n + 5, d.a2, d.j2,
         Put(n + 5, d.a1, d.j1, Put(n + 5, d.a0, d.j0, Entry(t, n, n + 5))))))
    && d.j5 == Moved(d.j4, d.a5, n + 5)
    && d.a6 == Put(n + 6, d.a5, d.j5, Put(n + 6, d.a4, d.j4, Put(n + 6, d.a3, d.j3,
         Put(n + 6, d.a2, d.j2, Put(n + 6, d.a1, d.j1, Put(n + 6, d.a0, d.j0, Entry(t, n, n + 6)))))))
    && d.j6 == Moved(d.j5, d.a6, n + 6)
    && d.a7 == Put(n + 7, d.a6, d.j6, Put(n + 7, d.a5, d.j5, Put(n + 7, d.a4, d.j4,
         Put(n + 7, d.a3, d.j3, Put(n + 7, d.a2, d.j2, Put(n + 7, d.a1, d.j1,
         Put(n + 7, d.a0, d.j0, Entry(t, n, n + 7))))))))
    && d.j7 == Moved(d.j6, d.a7, n + 7)
  }

  /** What they leave: places outside the eight keep their entries unless the index came by. */
  ghost predicate Leaves(t: Trace, n: nat, d: Eight) {
    && Index(t, n + 8) == d.j7
    && forall p {:trigger Entry(t, n + 8, p)} | 0 <= p < 256 && !(n <= p < n + 8) ::
         Entry(t, n + 8, p) ==
         Put(p, d.a7, d.j7, Put(p, d.a6, d.j6, Put(p, d.a5, d.j5, Put(p, d.a4, d.j4,
           Put(p, d.a3, d.j3, Put(p, d.a2, d.j2, Put(p, d.a1, d.j1, Put(p, d.a0, d.j0, Entry(t, n, p)))))))))
  }

  lemma One(t: Trace, n: nat, j: int, a: int, j': int)
    requires Runs(t) && n < 256 && Index(t, n) == j && Entry(t, n, n) == a && j' == Moved(j, a, n)
    ensures Index(t, n + 1) == j'
    ensures forall p | 0 <= p < 256 && p != n :: Entry(t, n + 1, p) == Put(p, a, j', Entry(t, n, p))
  {
    hide Entry, Index, Moved;
    assert Turns(t, n);
  }

  lemma EightLeave(t: Trace, n: nat, j: int, d: Eight)
    requires Runs(t) && n + 8 <= 256 && Fits(t, n, j, d)
    ensures Leaves(t, n, d)
  {
    hide Entry, Index, Moved, Runs;
    One(t, n, j, d.a0, d.j0);
    One(t, n + 1, d.j0, d.a1, d.j1);
    One(t, n + 2, d.j1, d.a2, d.j2);
    One(t, n + 3, d.j2, d.a3, d.j3);
    One(t, n + 4, d.j3, d.a4, d.j4);
    One(t, n + 5, d.j4, d.a5, d.j5);
    One(t, n + 6, d.j5, d.a6, d.j6);
    One(t, n + 7, d.j6, d.a7, d.j7);
  }

  lemma Starts(t: Trace)
    requires Runs(t)
    ensures Upto0(t)
  {
    hide Entry, Index, Turns;
  }

  // --- The 256 rounds ----------------------------------------------------------------------------

  const ROUNDS_0 := Eight(0, 1, 0, 3, 2, 8, 0, 12, 4, 21, 5, 27, 6, 35, 7, 45)
  const ROUNDS_1 := Eight(2, 51, 9, 65, 10, 76, 11, 89, 0, 92, 13, 109, 14, 128, 15, 144)
  const ROUNDS_2 := Eight(16, 162, 17, 182, 18, 204, 19, 228, 20, 249, 4, 255, 22, 24, 23, 51)
  const ROUNDS_3 := Eight(22, 78, 25, 104, 26, 132, 5, 140, 28, 172, 29, 206, 30, 237, 31, 14)
  const ROUNDS_4 := Eight(32, 49, 33, 86, 34, 125, 6, 132, 36, 170, 37, 210, 38, 252, 39, 40)
  const ROUNDS_5 := Eight(39, 80, 41, 123, 42, 168, 43, 215, 44, 8, 7, 16, 46, 64, 47, 114)
  const ROUNDS_6 := Eight(48, 166, 32, 203, 50, 254, 23, 23, 52, 78, 53, 135, 54, 194, 55, 250)
  const ROUNDS_7 := Eight(56, 52, 57, 112, 58, 174, 59, 238, 60, 43, 61, 106, 62, 171, 63, 238)
  const ROUNDS_8 := Eight(46, 33, 9, 43, 66, 111, 67, 181, 68, 253, 69, 71, 70, 142, 69, 213)
  const ROUNDS_9 := Eight(72, 32, 73, 109, 74, 188, 75, 8, 10, 20, 77, 100, 52, 156, 79, 240)
  const ROUNDS_10 := Eight(39, 24, 81, 107, 82, 192, 83, 23, 84, 112, 85, 198, 33, 233, 87, 67)
  const ROUNDS_11 := Eight(88, 159, 11, 175, 90, 10, 91, 103, 0, 106, 93, 203, 94, 46, 95, 142)
  const ROUNDS_12 := Eight(96, 240, 97, 84, 98, 186, 99, 34, 77, 112, 101, 215, 102, 64, 91, 159)
  const ROUNDS_13 := Eight(25, 189, 105, 39, 0, 41, 81, 125, 108, 237, 73, 59, 110, 170, 66, 238)
  const ROUNDS_14 := Eight(77, 62, 113, 179, 47, 231, 115, 91, 116, 209, 117, 73, 118, 195, 119, 63)
  const ROUNDS_15 := Eight(120, 184, 121, 51, 122, 176, 41, 221, 124, 94, 81, 176, 126, 48, 127, 178)
  const ROUNDS_16 := Eight(14, 196, 129, 74, 130, 205, 131, 82, 6, 91, 133, 228, 134, 111, 53, 165)
  const ROUNDS_17 := Eight(136, 47, 137, 187, 138, 73, 139, 217, 5, 223, 141, 110, 95, 208, 143, 99)
  const ROUNDS_18 := Eight(15, 119, 145, 9, 146, 157, 147, 51, 148, 203, 149, 101, 150, 252, 151, 149)
  const ROUNDS_19 := Eight(152, 48, 153, 205, 154, 108, 155, 8, 52, 62, 146, 211, 158, 117, 91, 213)
  const ROUNDS_20 := Eight(160, 118, 161, 25, 16, 44, 163, 211, 164, 124, 53, 178, 48, 228, 167, 142)
  const ROUNDS_21 := Eight(42, 188, 169, 106, 110, 217, 62, 25, 28, 56, 173, 233, 58, 40, 11, 52)
  const ROUNDS_22 := Eight(81, 135, 177, 59, 53, 116, 113, 234, 180, 159, 67, 228, 17, 248, 183, 179)
  const ROUNDS_23 := Eight(120, 48, 185, 234, 98, 78, 137, 218, 42, 8, 25, 38, 190, 229, 191, 166)
  const ROUNDS_24 := Eight(82, 251, 193, 192, 54, 251, 118, 114, 14, 130, 197, 74, 85, 163, 199, 111)
  const ROUNDS_25 := Eight(200, 56, 201, 3, 202, 208, 148, 104, 18, 127, 153, 25, 29, 56, 207, 10)
  const ROUNDS_26 := Eight(202, 216, 116, 81, 37, 119, 163, 28, 212, 243, 91, 82, 214, 45, 101, 147)
  const ROUNDS_27 := Eight(202, 95, 110, 208, 137, 93, 219, 61, 220, 26, 41, 69, 222, 38, 5, 47)
  const ROUNDS_28 := Eight(224, 20, 225, 246, 226, 218, 227, 192, 67, 7, 190, 202, 230, 177, 47, 226)
  const ROUNDS_29 := Eight(232, 205, 173, 126, 185, 60, 235, 40, 236, 22, 108, 133, 66, 203, 239, 191)
  const ROUNDS_30 := Eight(96, 32, 241, 19, 242, 8, 212, 224, 244, 217, 245, 207, 225, 178, 247, 172)
  const ROUNDS_31 := Eight(17, 193, 20, 218, 55, 18, 54, 74, 150, 227, 68, 43, 50, 98, 4, 103)

  ghost predicate Upto0(t: Trace) { Index(t, 0) == 0 && forall p | 0 <= p < 256 :: Entry(t, 0, p) == p }

  ghost predicate Upto1(t: Trace) { Upto0(t) && Leaves(t, 0, ROUNDS_0) }

  lemma To1(t: Trace)
    requires Runs(t) && Upto0(t)
    ensures Upto1(t)
  {
    hide Entry, Index, Runs;
    EightLeave(t, 0, 0, ROUNDS_0);
  }

  ghost predicate Upto2(t: Trace) { Upto1(t) && Leaves(t, 8, ROUNDS_1) }

  lemma To2(t: Trace)
    requires Runs(t) && Upto1(t)
    ensures Upto2(t)
  {
    hide Entry, Index, Runs;
    EightLeave(t, 8, 45, ROUNDS_1);
  }

  ghost predicate Upto3(t: Trace) { Upto2(t) && Leaves(t, 16, ROUNDS_2) }

  lemma To3(t: Trace)
    requires Runs(t) && Upto2(t)
    ensures Upto3(t)
  {
    hide Entry, Index, Runs;
    EightLeave(t, 16, 144, ROUNDS_2);
  }

  ghost predicate Upto4(t: Trace) { Upto3(t) && Leaves(t, 24, ROUNDS_3) }

  lemma To4(t: Trace)
    requires Runs(t) && Upto3(t)
    ensures Upto4(t)
  {
    hide Entry, Index, Runs;
    EightLeave(t, 24, 51, ROUNDS_3);
  }

  ghost predicate Upto5(t: Trace) { Upto4(t) && Leaves(t, 32, ROUNDS_4) }

  lemma To5(t: Trace)
    requires Runs(t) && Upto4(t)
    ensures Upto5(t)
  {
    hide Entry, Index, Runs;
    EightLeave(t, 32, 14, ROUNDS_4);
  }

  ghost predicate Upto6(t: Trace) { Upto5(t) && Leaves(t, 40, ROUNDS_5) }

  lemma To6(t: Trace)
    requires Runs(t) && Upto5(t)
    ensures Upto6(t)
  {
    hide Entry, Index, Runs;
    EightLeave(t, 40, 40, ROUNDS_5);
  }

  ghost predicate Upto7(t: Trace) { Upto6(t) && Leaves(t, 48, ROUNDS_6) }

  lemma To7(t: Trace)
    requires Runs(t) && Upto6(t)
    ensures Upto7(t)
  {
    hide Entry, Index, Runs;
    EightLeave(t, 48, 114, ROUNDS_6);
  }

  ghost predicate Upto8(t: Trace) { Upto7(t) && Leaves(t, 56, ROUNDS_7) }

  lemma To8(t: Trace)
    requires Runs(t) && Upto7(t)
    ensures Upto8(t)
  {
    hide Entry, Index, Runs;
    EightLeave(t, 56, 250, ROUNDS_7);
  }

  ghost predicate Upto9(t: Trace) { Upto8(t) && Leaves(t, 64, ROUNDS_8) }

  lemma To9(t: Trace)
    requires Runs(t) && Upto8(t)
    ensures Upto9(t)
  {
    hide Entry, Index, Runs;
    EightLeave(t, 64, 238, ROUNDS_8);
  }

  ghost predicate Upto10(t: Trace) { Upto9(t) && Leaves(t, 72, ROUNDS_9) }

  lemma To10(t: Trace)
    requires Runs(t) && Upto9(t)
    ensures Upto10(t)
  {
    hide Entry, Index, Runs;
    EightLeave(t, 72, 213, ROUNDS_9);
  }

  ghost predicate Upto11(t: Trace) { Upto10(t) && Leaves(t, 80, ROUNDS_10) }

  lemma To11(t: Trace)
    requires Runs(t) && Upto10(t)
    ensures Upto11(t)
  {
    hide Entry, Index, Runs;
    EightLeave(t, 80, 240, ROUNDS_10);
  }

  ghost predicate Upto12(t: Trace) { Upto11(t) && Leaves(t, 88, ROUNDS_11) }

  lemma To12(t: Trace)
    requires Runs(t) && Upto11(t)
    ensures Upto12(t)
  {
    hide Entry, Index, Runs;
    EightLeave(t, 88, 67, ROUNDS_11);
  }

  ghost predicate Upto13(t: Trace) { Upto12(t) && Leaves(t, 96, ROUNDS_12) }

  lemma To13(t: Trace)
    requires Runs(t) && Upto12(t)
    ensures Upto13(t)
  {
    hide Entry, Index, Runs;
    EightLeave(t, 96, 142, ROUNDS_12);
  }

  ghost predicate Upto14(t: Trace) { Upto13(t) && Leaves(t, 104, ROUNDS_13) }

  lemma To14(t: Trace)
    requires Runs(t) && Upto13(t)
    ensures Upto14(t)
  {
    hide Entry, Index, Runs;
    EightLeave(t, 104, 159, ROUNDS_13);
  }

  ghost predicate Upto15(t: Trace) { Upto14(t) && Leaves(t, 112, ROUNDS_14) }

  lemma To15(t: Trace)
    requires Runs(t) && Upto14(t)
    ensures Upto15(t)
  {
    hide Entry, Index, Runs;
    EightLeave(t, 112, 238, ROUNDS_14);
  }

  ghost predicate Upto16(t: Trace) { Upto15(t) && Leaves(t, 120, ROUNDS_15) }

  lemma To16(t: Trace)
    requires Runs(t) && Upto15(t)
    ensures Upto16(t)
  {
    hide Entry, Index, Runs;
    EightLeave(t, 120, 63, ROUNDS_15);
  }

  ghost predicate Upto17(t: Trace) { Upto16(t) && Leaves(t, 128, ROUNDS_16) }

  lemma To17(t: Trace)
    requires Runs(t) && Upto16(t)
    ensures Upto17(t)
  {
    hide Entry, Index, Runs;
    EightLeave(t, 128, 178, ROUNDS_16);
  }

  ghost predicate Upto18(t: Trace) { Upto17(t) && Leaves(t, 136, ROUNDS_17) }

  lemma To18(t: Trace)
    requires Runs(t) && Upto17(t)
    ensures Upto18(t)
  {
    hide Entry, Index, Runs;
    EightLeave(t, 136, 165, ROUNDS_17);
  }

  ghost predicate Upto19(t: Trace) { Upto18(t) && Leaves(t, 144, ROUNDS_18) }

  lemma To19(t: Trace)
    requires Runs(t) && Upto18(t)
    ensures Upto19(t)
  {
    hide Entry, Index, Runs;
    EightLeave(t, 144, 99, ROUNDS_18);
  }

  ghost predicate Upto20(t: Trace) { Upto19(t) && Leaves(t, 152, ROUNDS_19) }

  lemma To20(t: Trace)
    requires Runs(t) && Upto19(t)
    ensures Upto20(t)
  {
    hide Entry, Index, Runs;
    EightLeave(t, 152, 149, ROUNDS_19);
  }

  ghost predicate Upto21(t: Trace) { Upto20(t) && Leaves(t, 160, ROUNDS_20) }

  lemma To21(t: Trace)
    requires Runs(t) && Upto20(t)
    ensures Upto21(t)
  {
    hide Entry, Index, Runs;
    EightLeave(t, 160, 213, ROUNDS_20);
  }

  ghost predicate Upto22(t: Trace) { Upto21(t) && Leaves(t, 168, ROUNDS_21) }

  lemma To22(t: Trace)
    requires Runs(t) && Upto21(t)
    ensures Upto22(t)
  {
    hide Entry, Index, Runs;
    EightLeave(t, 168, 142, ROUNDS_21);
  }

  ghost predicate Upto23(t: Trace) { Upto22(t) && Leaves(t, 176, ROUNDS_22) }

  lemma To23(t: Trace)
    requires Runs(t) && Upto22(t)
    ensures Upto23(t)
  {
    hide Entry, Index, Runs;
    EightLeave(t, 176, 52, ROUNDS_22);
  }

  ghost predicate Upto24(t: Trace) { Upto23(t) && Leaves(t, 184, ROUNDS_23) }

  lemma To24(t: Trace)
    requires Runs(t) && Upto23(t)
    ensures Upto24(t)
  {
    hide Entry, Index, Runs;
    EightLeave(t, 184, 179, ROUNDS_23);
  }

  ghost predicate Upto25(t: Trace) { Upto24(t) && Leaves(t, 192, ROUNDS_24) }

  lemma To25(t: Trace)
    requires Runs(t) && Upto24(t)
    ensures Upto25(t)
  {
    hide Entry, Index, Runs;
    EightLeave(t, 192, 166, ROUNDS_24);
  }

  ghost predicate Upto26(t: Trace) { Upto25(t) && Leaves(t, 200, ROUNDS_25) }

  lemma To26(t: Trace)
    requires Runs(t) && Upto25(t)
    ensures Upto26(t)
  {
    hide Entry, Index, Runs;
    EightLeave(t, 200, 111, ROUNDS_25);
  }

  ghost predicate Upto27(t: Trace) { Upto26(t) && Leaves(t, 208, ROUNDS_26) }

  lemma To27(t: Trace)
    requires Runs(t) && Upto26(t)
    ensures Upto27(t)
  {
    hide Entry, Index, Runs;
    EightLeave(t, 208, 10, ROUNDS_26);
  }

  ghost predicate Upto28(t: Trace) { Upto27(t) && Leaves(t, 216, ROUNDS_27) }

  lemma To28(t: Trace)
    requires Runs(t) && Upto27(t)
    ensures Upto28(t)
  {
    hide Entry, Index, Runs;
    EightLeave(t, 216, 147, ROUNDS_27);
  }

  ghost predicate Upto29(t: Trace) { Upto28(t) && Leaves(t, 224, ROUNDS_28) }

  lemma To29(t: Trace)
    requires Runs(t) && Upto28(t)
    ensures Upto29(t)
  {
    hide Entry, Index, Runs;
    EightLeave(t, 224, 47, ROUNDS_28);
  }

  ghost predicate Upto30(t: Trace) { Upto29(t) && Leaves(t, 232, ROUNDS_29) }

  lemma To30(t: Trace)
    requires Runs(t) && Upto29(t)
    ensures Upto30(t)
  {
    hide Entry, Index, Runs;
    EightLeave(t, 232, 226, ROUNDS_29);
  }

  ghost predicate Upto31(t: Trace) { Upto30(t) && Leaves(t, 240, ROUNDS_30) }

  lemma To31(t: Trace)
    requires Runs(t) && Upto30(t)
    ensures Upto31(t)
  {
    hide Entry, Index, Runs;
    EightLeave(t, 240, 191, ROUNDS_30);
  }

  ghost predicate Upto32(t: Trace) { Upto31(t) && Leaves(t, 248, ROUNDS_31) }

  lemma To32(t: Trace)
    requires Runs(t) && Upto31(t)
    ensures Upto32(t)
  {
    hide Entry, Index, Runs;
    EightLeave(t, 248, 172, ROUNDS_31);
  }

  // --- Places in the final table -----------------------------------------------------------------

  /** Eight rounds one by one. */
  ghost predicate Paces(t: Trace, n: nat, d: Eight) {
    && Entry(t, n + 1, n) == Entry(t, n, d.j0)
    && (forall p {:trigger Entry(t, n + 1, p)} | 0 <= p < 256 && p != n ::
          Entry(t, n + 1, p) == Put(p, d.a0, d.j0, Entry(t, n, p)))
    && Entry(t, n + 2, n + 1) == Entry(t, n + 1, d.j1)
    && (forall p {:trigger Entry(t, n + 2, p)} | 0 <= p < 256 && p != n + 1 ::
          Entry(t, n + 2, p) == Put(p, d.a1, d.j1, Entry(t, n + 1, p)))
    && Entry(t, n + 3, n + 2) == Entry(t, n + 2, d.j2)
    && (forall p {:trigger Entry(t, n + 3, p)} | 0 <= p < 256 && p != n + 2 ::
          Entry(t, n + 3, p) == Put(p, d.a2, d.j2, Entry(t, n + 2, p)))
    && Entry(t, n + 4, n + 3) == Entry(t, n + 3, d.j3)
    && (forall p {:trigger Entry(t, n + 4, p)} | 0 <= p < 256 && p != n + 3 ::
          Entry(t, n + 4, p) == Put(p, d.a3, d.j3, Entry(t, n + 3, p)))
    && Entry(t, n + 5, n + 4) == Entry(t, n + 4, d.j4)
    && (forall p {:trigger Entry(t, n + 5, p)} | 0 <= p < 256 && p != n + 4 ::
          Entry(t, n + 5, p) == Put(p, d.a4, d.j4, Entry(t, n + 4, p)))
    && Entry(t, n + 6, n + 5) == Entry(t, n + 5, d.j5)
    && (forall p {:trigger Entry(t, n + 6, p)} | 0 <= p < 256 && p != n + 5 ::
          Entry(t, n + 6, p) == Put(p, d.a5, d.j5, Entry(t, n + 5, p)))
    && Entry(t, n + 7, n + 6) == Entry(t, n + 6, d.j6)
    && (forall p {:trigger Entry(t, n + 7, p)} | 0 <= p < 256 && p != n + 6 ::
          Entry(t, n + 7, p) == Put(p, d.a6, d.j6, Entry(t, n + 6, p)))
    && Entry(t, n + 8, n + 7) == Entry(t, n + 7, d.j7)
    && (forall p {:trigger Entry(t, n + 8, p)} | 0 <= p < 256 && p != n + 7 ::
          Entry(t, n + 8, p) == Put(p, d.a7, d.j7, Entry(t, n + 7, p)))
  }

  lemma Swapped(t: Trace, n: nat, j: int)
    requires Runs(t) && n < 256 && Index(t, n + 1) == j && j != n
    ensures Entry(t, n + 1, n) == Entry(t, n, j)
  {
    hide Entry, Index, Moved;
    assert Turns(t, n);
  }

  lemma EightPaces(t: Trace, n: nat, j: int, d: Eight)
    requires Runs(t) && n + 8 <= 256 && Fits(t, n, j, d)
    requires d.j0 != n && d.j1 != n + 1 && d.j2 != n + 2 && d.j3 != n + 3
    requires d.j4 != n + 4 && d.j5 != n + 5 && d.j6 != n + 6 && d.j7 != n + 7
    ensures Paces(t, n, d)
  {
    hide Entry, Index, Moved, Runs;
    One(t, n, j, d.a0, d.j0);
    Swapped(t, n, d.j0);
    One(t, n + 1, d.j0, d.a1, d.j1);
    Swapped(t, n + 1, d.j1);
    One(t, n + 2, d.j1, d.a2, d.j2);
    Swapped(t, n + 2, d.j2);
    One(t, n + 3, d.j2, d.a3, d.j3);
    Swapped(t, n + 3, d.j3);
    One(t, n + 4, d.j3, d.a4, d.j4);
    Swapped(t, n + 4, d.j4);
    One(t, n + 5, d.j4, d.a5, d.j5);
    Swapped(t, n + 5, d.j5);
    One(t, n + 6, d.j5, d.a6, d.j6);
    Swapped(t, n + 6, d.j6);
    One(t, n + 7, d.j6, d.a7, d.j7);
    Swapped(t, n + 7, d.j7);
  }

  lemma Places0(t: Trace)
    requires Runs(t) && Upto32(t)
    ensures Entry(t, 256, 1) == 3 && Entry(t, 256, 2) == 8 && Entry(t, 256, 4) == 21
  {
    hide Entry, Index, Runs;
    EightPaces(t, 0, 0, ROUNDS_0);
    assert Entry(t, 8, 1) == 3;
    assert Entry(t, 8, 2) == 8;
    assert Entry(t, 8, 4) == 21;
  }

  lemma Places8(t: Trace)
    requires Runs(t) && Upto32(t)
    ensures Entry(t, 256, 11) == 89
  {
    hide Entry, Index, Runs;
    EightPaces(t, 8, 45, ROUNDS_1);
    assert Entry(t, 16, 11) == 89;
  }

  lemma Places32(t: Trace)
    requires Runs(t) && Upto32(t)
    ensures Entry(t, 256, 35) == 26
  {
    hide Entry, Index, Runs;
    EightPaces(t, 32, 14, ROUNDS_4);
    assert Entry(t, 40, 35) == 26;
  }

  lemma Places80(t: Trace)
    requires Runs(t) && Upto32(t)
    ensures Entry(t, 88, 84) == 57
  {
    hide Entry, Index, Runs;
    EightPaces(t, 80, 240, ROUNDS_10);
    assert Entry(t, 88, 84) == 57;
  }

  lemma Places96(t: Trace)
    requires Runs(t) && Upto32(t) && Entry(t, 88, 84) == 57
    ensures Entry(t, 256, 97) == 57
  {
    hide Entry, Index, Runs;
    EightPaces(t, 96, 142, ROUNDS_12);
    assert Entry(t, 104, 97) == 57;
  }

  lemma Places120(t: Trace)
    requires Runs(t) && Upto32(t)
    ensures Entry(t, 128, 127) == 178
  {
    hide Entry, Index, Runs;
    EightPaces(t, 120, 63, ROUNDS_15);
    assert Entry(t, 128, 127) == 178;
  }

  lemma Places200(t: Trace)
    requires Runs(t) && Upto32(t) && Entry(t, 128, 127) == 178
    ensures Entry(t, 256, 204) == 178
  {
    hide Entry, Index, Runs;
    EightPaces(t, 200, 111, ROUNDS_25);
    assert Entry(t, 208, 204) == 178;
  }

  lemma PlacesHit(t: Trace)
    requires Upto32(t)
    ensures Entry(t, 256, 3) == 201 && Entry(t, 256, 14) == 31 && Entry(t, 256, 34) == 99 && Entry(t, 256, 47) == 5
  {
    hide Entry, Index;
  }

  // --- The key stream ----------------------------------------------------------------------------

  /** The places read by the first four bytes. */
  predicate Places(s: seq<Byte>) {
    && |s| == 256 && s[1] == 3 && s[2] == 8 && s[3] == 201 && s[4] == 21 && s[11] == 89 && s[14] == 31
    && s[34] == 99 && s[35] == 26 && s[47] == 5 && s[97] == 57 && s[204] == 178
  }

  lemma AllPlaces(t: Trace)
    requires Runs(t)
    ensures Places(t[256].s)
  {
    hide Index, Runs, Upto0, Upto1, Upto2, Upto3, Upto4, Upto5, Upto6, Upto7, Upto8, Upto9,
      Upto10, Upto11, Upto12, Upto13, Upto14, Upto15, Upto16, Upto17, Upto18, Upto19, Upto20, Upto21,
      Upto22, Upto23, Upto24, Upto25, Upto26, Upto27, Upto28, Upto29, Upto30, Upto31, Upto32;
    Starts(t);
    To1(t);
    To2(t);
    To3(t);
    To4(t);
    To5(t);
    To6(t);
    To7(t);
    To8(t);
    To9(t);
    To10(t);
    To11(t);
    To12(t);
    To13(t);
    To14(t);
    To15(t);
    To16(t);
    To17(t);
    To18(t);
    To19(t);
    To20(t);
    To21(t);
    To22(t);
    To23(t);
    To24(t);
    To25(t);
    To26(t);
    To27(t);
    To28(t);
    To29(t);
    To30(t);
    To31(t);
    To32(t);
    Places0(t);
    Places8(t);
    Places32(t);
    Places80(t);
    Places96(t);
    Places120(t);
    Places200(t);
    PlacesHit(t);
  }

  /** One byte of output, given the two entries that change places. */
  lemma NextIs(c: State, i: Byte, a: Byte, j: Byte, b: Byte)
    requires HasTable(c) && i == Plus(c.i, 1) && c.s[i] == a && j == Plus(c.j, a) && c.s[j] == b && i != j
    ensures var d := Next(c);
            && HasTable(d) && d.i == i && d.j == j && d.s[i] == b && d.s[j] == a && Output(d) == d.s[Plus(b, a)]
            && forall p: Byte | p != i && p != j :: d.s[p] == c.s[p]
  {
    hide Plus;
  }

  lemma Sums()
    ensures Plus(0, 1) == 1 && Plus(1, 1) == 2 && Plus(2, 1) == 3 && Plus(3, 1) == 4
    ensures Plus(0, 3) == 3 && Plus(3, 8) == 11 && Plus(11, 3) == 14 && Plus(14, 21) == 35
    ensures Plus(201, 3) == 204 && Plus(89, 8) == 97 && Plus(31, 3) == 34 && Plus(26, 21) == 47
  {
  }

  lemma FourBytes(c: State)
    requires Places(c.s) && c.i == 0 && c.j == 0
    ensures Output(Next(c)) == 178 && Output(Next(Next(c))) == 57
    ensures Output(Next(Next(Next(c)))) == 99 && Output(Next(Next(Next(Next(c))))) == 5
  {
    hide Next, Output, Plus;
    Sums();
    NextIs(c, 1, 3, 3, 201);
    NextIs(Next(c), 2, 8, 11, 89);
    NextIs(Next(Next(c)), 3, 3, 14, 31);
    NextIs(Next(Next(Next(c))), 4, 21, 35, 26);
  }

  lemma TraceRuns(key: seq<Byte>, t: Trace)
    requires key == KEY && forall n | 0 <= n <= 256 :: t[n] == Scheduled(key, n)
    ensures Runs(t)
  {
    forall n | 0 <= n < 256 ensures Turns(t, n) { RoundTurns(key, t, n); }
    assert t[0] == Scheduled(key, 0);
  }

  lemma PlusTwice(a: Byte, b: Byte, c: Byte)
    ensures Plus(Plus(a, b), c) == (a + b + c) % 256
  {
  }

  lemma RoundTurns(key: seq<Byte>, t: Trace, n: nat)
    requires key == KEY && n < 256 && t[n] == Scheduled(key, n) && t[n + 1] == Scheduled(key, n + 1)
    ensures Turns(t, n)
  {
    hide Plus, Identity, Swap;
    var c, d := t[n], t[n + 1];
    KeyByte(key, n);
    assert d.j == Plus(Plus(c.j, c.s[n]), key[n % |key|]) && d.s == Swap(c.s, n, d.j);
    PlusTwice(c.j, c.s[n], key[n % |key|]);
    assert Index(t, n + 1) == Moved(Index(t, n), Entry(t, n, n), n);
    forall p | 0 <= p < 256
      ensures Entry(t, n + 1, p) == if p == Index(t, n + 1) then Entry(t, n, n)
                                    else if p == n then Entry(t, n, Index(t, n + 1)) else Entry(t, n, p)
    {
      SwapAt(c.s, n, d.j, p);
    }
  }

  lemma SwapAt(s: seq<Byte>, i: Byte, j: Byte, p: Byte)
    requires |s| == 256
    ensures Swap(s, i, j)[p] == if p == j then s[i] else if p == i then s[j] else s[p]
  {
  }

  lemma KeyByte(key: seq<Byte>, n: nat)
    requires key == KEY
    ensures |key| == 5 && key[n % 5] == n % 5 + 1
  {
    var k := n % 5;
    assert k == 0 || k == 1 || k == 2 || k == 3 || k == 4;
  }

  lemma AfterNext(key: seq<Byte>, n: nat)
    requires key != []
    ensures After(key, n + 1) == Next(After(key, n))
  {
  }

  /** The key stream begins as published. */
  lemma PublishedStream(key: seq<Byte>)
    requires key == KEY
    ensures Mask(key, 0) == 0xB2 && Mask(key, 1) == 0x39 && Mask(key, 2) == 0x63 && Mask(key, 3) == 0x05
  {
    hide Scheduled, After, Next, Output, Runs, Places;
    var t: Trace := seq(257, n requires 0 <= n < 257 => Scheduled(key, n));
    TraceRuns(key, t);
    AllPlaces(t);
    Scheduling(key);
    AfterNext(key, 0);
    AfterNext(key, 1);
    AfterNext(key, 2);
    AfterNext(key, 3);
    FourBytes(After(key, 0));
  }

  lemma Scheduling(key: seq<Byte>)
    requires key != []
    ensures After(key, 0) == Scheduled(key, 256).(i := 0, j := 0)
  {
  }

  lemma {:induction false} XorZero(b: nat, n: nat)
    requires b < Pow(2, n)
    ensures XorBits(0, b, n) == b
  {
    if n > 0 { XorZero(b / 2, n - 1); }
  }

  /** Encrypting zeros shows the stream itself. */
  lemma PublishedVector(key: seq<Byte>)
    requires key == KEY
    ensures Applied(key, [0, 0, 0, 0]) == [0xB2, 0x39, 0x63, 0x05]
  {
    hide Mask, XorBits, Pow;
    PublishedStream(key);
    EightBits();
    XorZero(0xB2, 8);
    XorZero(0x39, 8);
    XorZero(0x63, 8);
    XorZero(0x05, 8);
  }
}
