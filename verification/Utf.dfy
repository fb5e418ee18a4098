/**
  The UTF-8 and UTF-16 converters behind every string on the wire.  Neither rejects anything, so what
  they preserve is stated exactly: see `Utf16RoundTrip` and `Utf8RoundTripExact`.
 */
module Utf {
  import opened Arith
  import opened Bytes

  /** `char16_t` */
  type Unit = x: nat | x < 0x1_0000

  predicate IsHigh(c: nat) { 0xD800 <= c <= 0xDBFF }

  predicate IsLow(c: nat) { 0xDC00 <= c <= 0xDFFF }

  // --- UTF-16 to UTF-8 ---------------------------------------------------------------------------

  /** One code point in one to four bytes; surrogates are written like any other. */
  function Encode(c: nat): (b: seq<Byte>)
    requires c < 0x11_0000
    ensures 1 <= |b| <= 4
  {
    if c < 0x80 then [c]
    else if c < 0x800 then [0xC0 + c / 64, 0x80 + c % 64]
    else if c < 0x1_0000 then [0xE0 + c / 4096, 0x80 + c / 64 % 64, 0x80 + c % 64]
    else [0xF0 + c / 262144, 0x80 + c / 4096 % 64, 0x80 + c / 64 % 64, 0x80 + c % 64]
  }

  predicate StartsPair(w: seq<Unit>) { |w| >= 2 && IsHigh(w[0]) && IsLow(w[1]) }

  function PairValue(high: Unit, low: Unit): (c: nat)
    requires IsHigh(high) && IsLow(low)
    ensures 0x1_0000 <= c < 0x11_0000
  {
    0x1_0000 + (high - 0xD800) * 1024 + (low - 0xDC00)
  }

  function ToUtf8(w: seq<Unit>): seq<Byte> {
    if w == [] then []
    else if StartsPair(w) then Encode(PairValue(w[0], w[1])) + ToUtf8(w[2..])
    else Encode(w[0]) + ToUtf8(w[1..])
  }

  // --- UTF-8 to UTF-16 ---------------------------------------------------------------------------

  /** The bits a lead byte contributes, and how many more bytes it announces. */
  function LeadBits(b: Byte): nat {
    if b < 0x80 then b else if b / 32 == 6 then b % 32 else if b / 16 == 14 then b % 16 else b % 8
  }

  function Extra(b: Byte): nat {
    if b < 0x80 then 0 else if b / 32 == 6 then 1 else if b / 16 == 14 then 2 else 3
  }

  /** Reads up to `k` further bytes, as far as there are any. */
  function Tail(s: seq<Byte>, c: nat, k: nat): nat {
    if k == 0 || s == [] then c else Tail(s[1..], c * 64 + s[0] % 64, k - 1)
  }

  function Used(s: seq<Byte>): (n: nat)
    requires s != []
    ensures 1 <= n <= |s|
  {
    var n := 1 + Extra(s[0]);
    if n <= |s| then n else |s|
  }

  function CodePoint(s: seq<Byte>): nat
    requires s != []
  {
    Tail(s[1..], LeadBits(s[0]), Extra(s[0]))
  }

  lemma {:induction false} TailBound(s: seq<Byte>, c: nat, k: nat, limit: nat)
    requires c < limit
    ensures Tail(s, c, k) < limit * Pow(64, k)
  {
    if k > 0 && s != [] {
      TailBound(s[1..], c * 64 + s[0] % 64, k - 1, limit * 64);
      Assoc(limit, 64, Pow(64, k - 1));
    } else {
      PowPositive(64, k);
      MulMono(1, Pow(64, k), limit);
    }
  }

  lemma CodePointBound(s: seq<Byte>)
    requires s != []
    ensures CodePoint(s) < 0x20_0000
  {
    assert Pow(64, 1) == 64 && Pow(64, 2) == 4096 && Pow(64, 3) == 262144 by { assert Pow(64, 2) == 64 * Pow(64, 1); }
    var limit := match Extra(s[0]) case 0 => 0x80 case 1 => 32 case 2 => 16 case _ => 8;
    TailBound(s[1..], LeadBits(s[0]), Extra(s[0]), limit);
  }

  /** A code point in one or two units. */
  function Units(c: nat): (u: seq<Unit>)
    requires c < 0x20_0000
    ensures 1 <= |u| <= 2
  {
    if c >= 0x1_0000 then [0xD800 + (c - 0x1_0000) / 1024, 0xDC00 + (c - 0x1_0000) % 1024] else [c]
  }

  function ToUtf16(s: seq<Byte>): seq<Unit> {
    if s == [] then []
    else CodePointBound(s); Units(CodePoint(s)) + ToUtf16(s[Used(s)..])
  }

  // --- From units to bytes and back --------------------------------------------------------------

  lemma Tail1(t: seq<Byte>, c: nat)
    requires |t| >= 1
    ensures Tail(t, c, 1) == c * 64 + t[0] % 64
  {
    assert Tail(t[1..], c * 64 + t[0] % 64, 0) == c * 64 + t[0] % 64;
  }

  lemma Tail2(t: seq<Byte>, c: nat)
    requires |t| >= 2
    ensures Tail(t, c, 2) == (c * 64 + t[0] % 64) * 64 + t[1] % 64
  {
    Tail1(t[1..], c * 64 + t[0] % 64);
  }

  lemma Tail3(t: seq<Byte>, c: nat)
    requires |t| >= 3
    ensures Tail(t, c, 3) == ((c * 64 + t[0] % 64) * 64 + t[1] % 64) * 64 + t[2] % 64
  {
    Tail2(t[1..], c * 64 + t[0] % 64);
  }

  lemma Recompose(c: nat)
    ensures c / 64 * 64 + c % 64 == c
    ensures c / 4096 * 64 + c / 64 % 64 == c / 64
    ensures c / 262144 * 64 + c / 4096 % 64 == c / 4096
  {
    assert c / 64 / 64 == c / 4096;
    assert c / 4096 / 64 == c / 262144;
  }

  lemma Decode1(c: nat, rest: seq<Byte>)
    requires c < 0x80
    ensures CodePoint([c] + rest) == c && Used([c] + rest) == 1
  {
    Tail0(([c] + rest)[1..], c);
  }

  lemma Decode2(a: nat, b: nat, rest: seq<Byte>)
    requires 2 <= a < 32 && b < 64
    ensures var s := [0xC0 + a, 0x80 + b] + rest; CodePoint(s) == a * 64 + b && Used(s) == 2
  {
    hide Tail;
    Tail1(([0xC0 + a, 0x80 + b] + rest)[1..], a);
  }

  lemma Decode3(a: nat, b: nat, d: nat, rest: seq<Byte>)
    requires a < 16 && b < 64 && d < 64
    ensures var s := [0xE0 + a, 0x80 + b, 0x80 + d] + rest; CodePoint(s) == (a * 64 + b) * 64 + d && Used(s) == 3
  {
    hide Tail;
    Tail2(([0xE0 + a, 0x80 + b, 0x80 + d] + rest)[1..], a);
  }

  lemma Decode4(a: nat, b: nat, d: nat, e: nat, rest: seq<Byte>)
    requires a < 8 && b < 64 && d < 64 && e < 64
    ensures var s := [0xF0 + a, 0x80 + b, 0x80 + d, 0x80 + e] + rest;
            CodePoint(s) == ((a * 64 + b) * 64 + d) * 64 + e && Used(s) == 4
  {
    hide Tail;
    Tail3(([0xF0 + a, 0x80 + b, 0x80 + d, 0x80 + e] + rest)[1..], a);
  }

  /** Decoding an encoded code point gives it back and stops where it ends. */
  lemma DecodeEncoded(c: nat, rest: seq<Byte>)
    requires c < 0x11_0000
    ensures var s := Encode(c) + rest; CodePoint(s) == c && Used(s) == |Encode(c)| && s[Used(s)..] == rest
  {
    hide Tail, CodePoint, Used;
    var s := Encode(c) + rest;
    assert s[|Encode(c)|..] == rest;
    Recompose(c);
    if c < 0x80 {
      Decode1(c, rest);
    } else if c < 0x800 {
      Decode2(c / 64, c % 64, rest);
    } else if c < 0x1_0000 {
      Decode3(c / 4096, c / 64 % 64, c % 64, rest);
    } else {
      Decode4(c / 262144, c / 4096 % 64, c / 64 % 64, c % 64, rest);
    }
  }

  lemma Tail0(t: seq<Byte>, c: nat)
    ensures Tail(t, c, 0) == c
  {
  }

  lemma ToUtf16Encoded(c: nat, rest: seq<Byte>)
    requires c < 0x11_0000
    ensures ToUtf16(Encode(c) + rest) == Units(c) + ToUtf16(rest)
  {
    hide Encode, CodePoint, Used;
    DecodeEncoded(c, rest);
  }

  lemma UnitsOfPair(high: Unit, low: Unit)
    requires IsHigh(high) && IsLow(low)
    ensures Units(PairValue(high, low)) == [high, low]
  {
  }

  /** Every sequence of code units survives, unpaired surrogates included. */
  lemma {:induction false} Utf16RoundTrip(w: seq<Unit>)
    ensures ToUtf16(ToUtf8(w)) == w
  {
    hide Encode, Units, PairValue;
    if w == [] {
    } else if StartsPair(w) {
      Utf16RoundTrip(w[2..]);
      ToUtf16Encoded(PairValue(w[0], w[1]), ToUtf8(w[2..]));
      UnitsOfPair(w[0], w[1]);
      assert w == [w[0], w[1]] + w[2..];
    } else {
      Utf16RoundTrip(w[1..]);
      ToUtf16Encoded(w[0], ToUtf8(w[1..]));
      UnitsOfOne(w[0]);
      assert w == [w[0]] + w[1..];
    }
  }

  lemma UnitsOfOne(u: Unit)
    ensures Units(u) == [u]
  {
  }

  // --- Which byte strings survive ----------------------------------------------------------------

  predicate IsTail(b: Byte) { 0x80 <= b <= 0xBF }

  /** The length of the character at the front by the table of section 4 of RFC 3629, with surrogates
      admitted; 0 if there is none. */
  function CharLength(s: seq<Byte>): (n: nat)
    ensures n <= |s|
  {
    if s == [] then 0
    else if s[0] < 0x80 then 1
    else if 0xC2 <= s[0] <= 0xDF && |s| >= 2 && IsTail(s[1]) then 2
    else if 0xE0 <= s[0] <= 0xEF && |s| >= 3 && IsTail(s[1]) && IsTail(s[2]) && (s[0] == 0xE0 ==> s[1] >= 0xA0) then 3
    else if 0xF0 <= s[0] <= 0xF4 && |s| >= 4 && IsTail(s[1]) && IsTail(s[2]) && IsTail(s[3])
            && (s[0] == 0xF0 ==> s[1] >= 0x90) && (s[0] == 0xF4 ==> s[1] <= 0x8F) then 4
    else 0
  }

  predicate HighForm(s: seq<Byte>) { |s| >= 2 && s[0] == 0xED && 0xA0 <= s[1] <= 0xAF }

  predicate LowForm(s: seq<Byte>) { |s| >= 2 && s[0] == 0xED && 0xB0 <= s[1] <= 0xBF }

  /** Well-formed UTF-8: characters only, and no surrogates among them. */
  predicate WellFormed(s: seq<Byte>)
    decreases |s|
  {
    s == [] || (CharLength(s) > 0 && !HighForm(s) && !LowForm(s) && WellFormed(s[CharLength(s)..]))
  }

  /** Surrogates may appear, but not a high one right before a low one. */
  predicate PairFree(s: seq<Byte>)
    decreases |s|
  {
    s == [] || (
      && CharLength(s) > 0
      && !(HighForm(s) && LowForm(s[CharLength(s)..]))
      && PairFree(s[CharLength(s)..]))
  }

  lemma {:induction false} WellFormedIsPairFree(s: seq<Byte>)
    requires WellFormed(s)
    ensures PairFree(s)
    decreases |s|
  {
    if s != [] { WellFormedIsPairFree(s[CharLength(s)..]); }
  }

  lemma Compose(a: nat, b: nat)
    requires b < 64
    ensures (a * 64 + b) / 64 == a && (a * 64 + b) % 64 == b
  {
  }

  /** A character is the encoding of the code point the decoder reads. */
  lemma CharIsEncoded(s: seq<Byte>)
    requires CharLength(s) > 0
    ensures var n := CharLength(s); var c := CodePoint(s);
            && Used(s) == n && c < 0x11_0000 && s[..n] == Encode(c)
            && (HighForm(s) <==> IsHigh(c)) && (LowForm(s) <==> IsLow(c))
  {
    var n := CharLength(s);
    if n == 1 { Char1(s); } else if n == 2 { Char2(s); } else if n == 3 { Char3(s); } else { Char4(s); }
  }

  lemma Char1(s: seq<Byte>)
    requires CharLength(s) == 1
    ensures Used(s) == 1 && CodePoint(s) == s[0] < 0x80 && s[..1] == Encode(s[0])
  {
    Decode1(s[0], s[1..]);
    assert s == [s[0]] + s[1..];
  }

  lemma Char2(s: seq<Byte>)
    requires CharLength(s) == 2
    ensures var c := CodePoint(s); Used(s) == 2 && 0x80 <= c < 0x800 && s[..2] == Encode(c)
  {
    hide CodePoint, Used;
    var a: nat, b: nat := s[0] - 0xC0, s[1] - 0x80;
    Decode2(a, b, s[2..]);
    assert s == [s[0], s[1]] + s[2..];
    Compose(a, b);
  }

  lemma Char3(s: seq<Byte>)
    requires CharLength(s) == 3
    ensures var c := CodePoint(s);
            && Used(s) == 3 && 0x800 <= c < 0x1_0000 && s[..3] == Encode(c)
            && (HighForm(s) <==> IsHigh(c)) && (LowForm(s) <==> IsLow(c))
  {
    hide CodePoint, Used;
    var a: nat, b: nat, d: nat := s[0] - 0xE0, s[1] - 0x80, s[2] - 0x80;
    Decode3(a, b, d, s[3..]);
    assert s == [s[0], s[1], s[2]] + s[3..];
    Compose(a, b);
    Compose(a * 64 + b, d);
    var c := (a * 64 + b) * 64 + d;
    assert c / 4096 == a && c / 64 == a * 64 + b;
  }

  lemma Char4(s: seq<Byte>)
    requires CharLength(s) == 4
    ensures var c := CodePoint(s); Used(s) == 4 && 0x1_0000 <= c < 0x11_0000 && s[..4] == Encode(c)
  {
    hide CodePoint, Used;
    var a: nat, b: nat, d: nat, e: nat := s[0] - 0xF0, s[1] - 0x80, s[2] - 0x80, s[3] - 0x80;
    Decode4(a, b, d, e, s[4..]);
    assert s == [s[0], s[1], s[2], s[3]] + s[4..];
    Compose(a, b);
    Compose(a * 64 + b, d);
    Compose((a * 64 + b) * 64 + d, e);
    var c := ((a * 64 + b) * 64 + d) * 64 + e;
    assert c / 64 == (a * 64 + b) * 64 + d && c / 4096 == a * 64 + b && c / 262144 == a;
  }

  /** ... and every encoding is a character. */
  lemma EncodedIsChar(c: nat, rest: seq<Byte>)
    requires c < 0x11_0000
    ensures var s := Encode(c) + rest;
            CharLength(s) == |Encode(c)| && (HighForm(s) <==> IsHigh(c)) && (LowForm(s) <==> IsLow(c))
  {
    var s := Encode(c) + rest;
    assert s[0] == Encode(c)[0];
    Recompose(c);
  }

  lemma FirstUnit(s: seq<Byte>)
    requires s != [] && PairFree(s)
    ensures ToUtf16(s) != [] && (IsLow(ToUtf16(s)[0]) <==> LowForm(s))
  {
    hide CodePoint, Used, Encode, CharLength;
    CodePointBound(s);
    CharIsEncoded(s);
  }

  lemma PairOfUnits(c: nat)
    requires 0x1_0000 <= c < 0x11_0000
    ensures var u := Units(c); |u| == 2 && IsHigh(u[0]) && IsLow(u[1]) && PairValue(u[0], u[1]) == c
  {
  }

  /** The units of one code point, written out again, in front of anything that does not complete a pair. */
  lemma UnitsBack(c: nat, u: seq<Unit>)
    requires c < 0x11_0000 && !(IsHigh(c) && u != [] && IsLow(u[0]))
    ensures ToUtf8(Units(c) + u) == Encode(c) + ToUtf8(u)
  {
    hide Encode;
    var w := Units(c) + u;
    if c >= 0x1_0000 {
      PairOfUnits(c);
      assert w[2..] == u;
    } else {
      assert w[1..] == u;
    }
  }

  lemma {:induction false} PairFreeSurvives(s: seq<Byte>)
    requires PairFree(s)
    ensures ToUtf8(ToUtf16(s)) == s
    decreases |s|
  {
    hide CodePoint, Used, Encode, CharLength, Units;
    if s != [] {
      var n := CharLength(s);
      var rest := s[n..];
      CharIsEncoded(s);
      PairFreeSurvives(rest);
      if rest != [] { FirstUnit(rest); }
      UnitsBack(CodePoint(s), ToUtf16(rest));
      assert s == s[..n] + rest;
    }
  }

  lemma {:induction false} OutputIsPairFree(w: seq<Unit>)
    ensures PairFree(ToUtf8(w))
    ensures w != [] && LowForm(ToUtf8(w)) ==> IsLow(w[0])
  {
    hide Encode, CharLength, HighForm, LowForm;
    if w == [] {
    } else if StartsPair(w) {
      var c := PairValue(w[0], w[1]);
      OutputIsPairFree(w[2..]);
      EncodedIsChar(c, ToUtf8(w[2..]));
      DropEncoded(c, ToUtf8(w[2..]));
    } else {
      OutputIsPairFree(w[1..]);
      EncodedIsChar(w[0], ToUtf8(w[1..]));
      DropEncoded(w[0], ToUtf8(w[1..]));
      if w[1..] == [] { NothingIsLow(); }
    }
  }

  lemma DropEncoded(c: nat, rest: seq<Byte>)
    requires c < 0x11_0000
    ensures (Encode(c) + rest)[|Encode(c)|..] == rest && Encode(c) + rest != []
  {
  }

  lemma NothingIsLow()
    ensures !LowForm([])
  {
  }

  /** Decoding and encoding a byte string gives it back exactly when it consists of characters with no
      surrogate pair spelled out as two of them. */
  lemma Utf8RoundTripExact(s: seq<Byte>)
    ensures ToUtf8(ToUtf16(s)) == s <==> PairFree(s)
  {
    if PairFree(s) { PairFreeSurvives(s); }
    OutputIsPairFree(ToUtf16(s));
  }

  /** A surrogate pair spelled as two characters comes back as one of four bytes. */
  lemma SpelledPairChanges()
    ensures var s := [0xED, 0xA0, 0x80, 0xED, 0xB0, 0x80]; ToUtf8(ToUtf16(s)) != s
  {
    var s: seq<Byte> := [0xED, 0xA0, 0x80, 0xED, 0xB0, 0x80];
    Utf8RoundTripExact(s);
    assert CharLength(s) == 3 && s[3..] == [0xED, 0xB0, 0x80];
  }

  /** In particular all well-formed UTF-8 survives. */
  lemma Utf8RoundTrip(s: seq<Byte>)
    requires WellFormed(s)
    ensures ToUtf8(ToUtf16(s)) == s
  {
    WellFormedIsPairFree(s);
    PairFreeSurvives(s);
  }

  // --- The loops ---------------------------------------------------------------------------------

  /** The inner loop: up to `extra` bytes from position `start`, as far as there are any. */
  method ReadTail(s: seq<Byte>, start: nat, lead: nat, extra: nat) returns (c: nat, i: nat)
    requires start <= |s|
    ensures c == Tail(s[start..], lead, extra)
    ensures i == if start + extra <= |s| then start + extra else |s|
  {
    c := lead;
    i := start;
    var k := 0;
    while k < extra && i < |s|
      invariant k <= extra && i == start + k <= |s|
      invariant Tail(s[i..], c, extra - k) == Tail(s[start..], lead, extra)
    {
      assert s[i..][1..] == s[i + 1..];
      c := c * 64 + s[i] % 64;
      k := k + 1;
      i := i + 1;
    }
  }

  method ConvertToUtf16(s: seq<Byte>) returns (out: seq<Unit>)
    ensures out == ToUtf16(s)
  {
    hide Tail, LeadBits, Extra, Units;
    out := [];
    var i := 0;
    assert s[0..] == s;
    while i < |s|
      invariant i <= |s|
      invariant out + ToUtf16(s[i..]) == ToUtf16(s)
    {
      ghost var t := s[i..];
      CodePointBound(t);
      assert t[1..] == s[i + 1..];
      var c, next := ReadTail(s, i + 1, LeadBits(s[i]), Extra(s[i]));
      assert next == i + Used(t) && t[Used(t)..] == s[next..];
      out := out + Units(c);
      i := next;
    }
  }

  method ConvertToUtf8(w: seq<Unit>) returns (out: seq<Byte>)
    ensures out == ToUtf8(w)
  {
    hide Encode;
    out := [];
    var i := 0;
    assert w[0..] == w;
    while i < |w|
      invariant i <= |w|
      invariant out + ToUtf8(w[i..]) == ToUtf8(w)
    {
      ghost var t := w[i..];
      var c: nat := w[i];
      if IsHigh(c) && i + 1 < |w| && IsLow(w[i + 1]) {
        c := PairValue(w[i], w[i + 1]);
        i := i + 1;
        assert StartsPair(t) && t[2..] == w[i + 1..];
      } else {
        assert !StartsPair(t) && t[1..] == w[i + 1..];
      }
      out := out + Encode(c);
      i := i + 1;
    }
  }
}
