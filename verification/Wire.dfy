/**
  The message reader and writer: little-endian integers, compact scalars, strings, byte arrays.  A read
  yields its value or the exception it threw, and in both cases the offset the reader is left at.
 */
module Wire {
  import opened Arith
  import opened Bytes
  import opened Utf

  datatype Read<+T> = Read(result: Result<T>, next: nat)

  const UNDERFLOW := "message underflow"
  const BAD_PREFIX := "bad compact scalar prefix"
  const NEGATIVE := "negative string length"

  const ANSI: Byte := 1
  const UNICODE: Byte := 2

  /** The bytes `b` stand at offset `off`. */
  predicate At(data: seq<Byte>, off: nat, b: seq<Byte>) {
    off + |b| <= |data| && data[off..off + |b|] == b
  }

  lemma AtSplit(data: seq<Byte>, off: nat, a: seq<Byte>, b: seq<Byte>)
    requires At(data, off, a + b)
    ensures At(data, off, a) && At(data, off + |a|, b)
  {
    var s := data[off..off + |a + b|];
    assert s == a + b;
    assert data[off..off + |a|] == s[..|a|];
    assert data[off + |a|..off + |a| + |b|] == s[|a|..];
  }

  // --- Integers ----------------------------------------------------------------------------------

  /** `message_reader::take` */
  function TakeAt(data: seq<Byte>, off: nat, count: nat): (r: Read<seq<Byte>>)
    requires off <= |data|
    ensures off <= r.next <= |data|
    ensures r.result.Ok? ==> |r.result.value| == count && r.next == off + count
  {
    if count > |data| - off then Read(Err(UNDERFLOW), off) else Read(Ok(data[off..off + count]), off + count)
  }

  function NumberAt(data: seq<Byte>, off: nat, width: nat): (r: Read<nat>)
    requires off <= |data|
    ensures off <= r.next <= |data|
  {
    var t := TakeAt(data, off, width);
    if t.result.Err? then Read(Err(t.result.error), t.next) else Read(Ok(BytesVal(t.result.value)), t.next)
  }

  lemma NumberBack(data: seq<Byte>, off: nat, v: nat, width: nat)
    requires v < Pow(256, width) && At(data, off, LeBytes(v, width))
    ensures NumberAt(data, off, width) == Read(Ok(v), off + width)
  {
    ValSpellFits(v, width);
  }

  // --- Compact scalars ---------------------------------------------------------------------------

  /** Half the span of a signed integer of `width` bytes. */
  function Half(width: nat): nat {
    match width case 1 => 0x80 case 2 => 0x8000 case 4 => 0x8000_0000 case _ => 0x8000_0000_0000_0000
  }

  predicate IsWidth(w: nat) { w == 1 || w == 2 || w == 4 || w == 8 }

  lemma Spans(w: nat)
    requires IsWidth(w)
    ensures Pow(256, w) == 2 * Half(w)
  {
    PowAdd(256, 1, 1);
    PowAdd(256, 2, 2);
    PowAdd(256, 4, 4);
  }

  predicate InRange(v: int, width: nat) { 0 <= v + Half(width) < 2 * Half(width) }

  /** The smallest width that holds `v`. */
  function Width(v: int): (w: nat)
    ensures IsWidth(w)
  {
    if InRange(v, 1) then 1 else if InRange(v, 2) then 2 else if InRange(v, 4) then 4 else 8
  }

  function TwosComplement(v: int, width: nat): nat
    requires InRange(v, width)
  {
    if v < 0 then v + 2 * Half(width) else v
  }

  function Signed(u: nat, width: nat): int { if u >= Half(width) then u - 2 * Half(width) else u }

  function ScalarBytes(v: int): (b: seq<Byte>)
    requires InRange(v, 8)
    ensures |b| == 1 + Width(v)
  {
    [Width(v)] + LeBytes(TwosComplement(v, Width(v)), Width(v))
  }

  function ScalarAt(data: seq<Byte>, off: nat): (r: Read<int>)
    requires off <= |data|
    ensures off <= r.next <= |data|
  {
    var p := NumberAt(data, off, 1);
    if p.result.Err? then Read(Err(p.result.error), p.next)
    else if !IsWidth(p.result.value) then Read(Err(BAD_PREFIX), p.next)
    else
      var u := NumberAt(data, p.next, p.result.value);
      if u.result.Err? then Read(Err(u.result.error), u.next)
      else Read(Ok(Signed(u.result.value, p.result.value)), u.next)
  }

  lemma OneByte(b: Byte)
    ensures LeBytes(b, 1) == [b] && b < Pow(256, 1)
  {
    assert Pow(256, 1) == 256 && Pow(256, 0) == 1;
  }

  /** Every 64-bit value is read back, whatever follows it. */
  lemma ScalarBack(data: seq<Byte>, off: nat, v: int)
    requires InRange(v, 8) && At(data, off, ScalarBytes(v))
    ensures ScalarAt(data, off) == Read(Ok(v), off + |ScalarBytes(v)|)
  {
    hide Pow, LeBytes, BytesVal;
    var w := Width(v);
    Spans(w);
    OneByte(w);
    AtSplit(data, off, LeBytes(w, 1), LeBytes(TwosComplement(v, w), w));
    NumberBack(data, off, w, 1);
    NumberBack(data, off + 1, TwosComplement(v, w), w);
  }

  // --- Lengths, byte arrays, strings -------------------------------------------------------------

  /** `read_length`: a scalar that does not reach past the end. */
  function LengthAt(data: seq<Byte>, off: nat): (r: Read<nat>)
    requires off <= |data|
    ensures off <= r.next <= |data|
  {
    var s := ScalarAt(data, off);
    if s.result.Err? then Read(Err(s.result.error), s.next)
    else if s.result.value < 0 || s.result.value > |data| - s.next then Read(Err(UNDERFLOW), s.next)
    else Read(Ok(s.result.value), s.next)
  }

  function ArrayBytes(b: seq<Byte>): seq<Byte>
    requires InRange(|b|, 8)
  {
    ScalarBytes(|b|) + b
  }

  function ArrayAt(data: seq<Byte>, off: nat): (r: Read<seq<Byte>>)
    requires off <= |data|
    ensures off <= r.next <= |data|
  {
    var n := LengthAt(data, off);
    if n.result.Err? then Read(Err(n.result.error), n.next) else TakeAt(data, n.next, n.result.value)
  }

  lemma ArrayBack(data: seq<Byte>, off: nat, b: seq<Byte>)
    requires InRange(|b|, 8) && At(data, off, ArrayBytes(b))
    ensures ArrayAt(data, off) == Read(Ok(b), off + |ArrayBytes(b)|)
  {
    hide ScalarAt, ScalarBytes;
    AtSplit(data, off, ScalarBytes(|b|), b);
    ScalarBack(data, off, |b|);
  }

  /** Code units in memory order, least significant byte first. */
  function UnitBytes(w: seq<Unit>): (b: seq<Byte>)
    ensures |b| == 2 * |w|
  {
    seq(2 * |w|, i requires 0 <= i < 2 * |w| => if i % 2 == 0 then w[i / 2] % 256 else w[i / 2] / 256)
  }

  function BytesUnits(b: seq<Byte>): seq<Unit> {
    seq(|b| / 2, i requires 0 <= i < |b| / 2 => MakeUnit(b[2 * i], b[2 * i + 1]))
  }

  function MakeUnit(low: Byte, high: Byte): Unit {
    var h: nat := high;
    low + 256 * h
  }

  lemma UnitSplit(u: Unit)
    ensures MakeUnit(u % 256, u / 256) == u
  {
  }

  lemma UnitBytesAt(w: seq<Unit>, i: nat)
    requires i < |w|
    ensures UnitBytes(w)[2 * i] == w[i] % 256 && UnitBytes(w)[2 * i + 1] == w[i] / 256
  {
    var even, odd := 2 * i, 2 * i + 1;
    assert even % 2 == 0 && even / 2 == i && odd % 2 == 1 && odd / 2 == i;
  }

  lemma UnitsBackFromBytes(w: seq<Unit>)
    ensures BytesUnits(UnitBytes(w)) == w
  {
    hide UnitBytes, MakeUnit;
    forall i | 0 <= i < |w| ensures BytesUnits(UnitBytes(w))[i] == w[i] {
      UnitBytesAt(w, i);
      UnitSplit(w[i]);
    }
  }

  function WideBytes(w: seq<Unit>): seq<Byte>
    requires InRange(|w|, 8)
  {
    [UNICODE] + ScalarBytes(|w|) + UnitBytes(w)
  }

  /** `write_text` */
  function TextBytes(s: seq<Byte>): seq<Byte>
    requires InRange(|ToUtf16(s)|, 8)
  {
    WideBytes(ToUtf16(s))
  }

  /** `read_string`: type 2 is UTF-16, anything else raw bytes. */
  function StringAt(data: seq<Byte>, off: nat): (r: Read<seq<Byte>>)
    requires off <= |data|
    ensures off <= r.next <= |data|
  {
    var kind := NumberAt(data, off, 1);
    if kind.result.Err? then Read(Err(kind.result.error), kind.next)
    else
      var n := ScalarAt(data, kind.next);
      if n.result.Err? then Read(Err(n.result.error), n.next)
      else if n.result.value < 0 then Read(Err(NEGATIVE), n.next)
      else if kind.result.value == UNICODE then
        var raw := TakeAt(data, n.next, 2 * n.result.value);
        if raw.result.Err? then raw else Read(Ok(ToUtf8(BytesUnits(raw.result.value))), raw.next)
      else TakeAt(data, n.next, n.result.value)
  }

  lemma WideBack(data: seq<Byte>, off: nat, w: seq<Unit>)
    requires InRange(|w|, 8) && At(data, off, WideBytes(w))
    ensures StringAt(data, off) == Read(Ok(ToUtf8(w)), off + |WideBytes(w)|)
  {
    hide ScalarAt, ScalarBytes, ToUtf8, LeBytes, BytesVal, Pow, UnitBytes, BytesUnits;
    AtSplit(data, off, [UNICODE] + ScalarBytes(|w|), UnitBytes(w));
    AtSplit(data, off, [UNICODE], ScalarBytes(|w|));
    OneByte(UNICODE);
    NumberBack(data, off, UNICODE, 1);
    ScalarBack(data, off + 1, |w|);
    UnitsBackFromBytes(w);
  }

  /** A written text is read back exactly when it is free of spelled-out surrogate pairs; well-formed UTF-8
      always is. */
  lemma TextBack(data: seq<Byte>, off: nat, s: seq<Byte>)
    requires InRange(|ToUtf16(s)|, 8) && At(data, off, TextBytes(s))
    ensures StringAt(data, off).next == off + |TextBytes(s)|
    ensures StringAt(data, off).result == Ok(s) <==> PairFree(s)
    ensures WellFormed(s) ==> StringAt(data, off).result == Ok(s)
  {
    hide ToUtf8, ToUtf16, WideBytes, StringAt;
    WideBack(data, off, ToUtf16(s));
    Utf8RoundTripExact(s);
    if WellFormed(s) { WellFormedIsPairFree(s); }
  }

  // --- What is not read back ---------------------------------------------------------------------

  /** The width written is the least of 1, 2, 4 and 8 that holds the value. */
  lemma WidthIsLeast(v: int, w: nat)
    requires InRange(v, 8) && IsWidth(w)
    ensures InRange(v, Width(v)) && (InRange(v, w) ==> Width(v) <= w)
  {
  }

  /** A string of any other type is its bytes as they stand, as many as its scalar says. */
  lemma PlainBack(data: seq<Byte>, off: nat, kind: Byte, b: seq<Byte>)
    requires kind != UNICODE && InRange(|b|, 8) && At(data, off, [kind] + ArrayBytes(b))
    ensures StringAt(data, off) == Read(Ok(b), off + 1 + |ArrayBytes(b)|)
  {
    hide ScalarAt, ScalarBytes, LeBytes, BytesVal, Pow;
    AtSplit(data, off, [kind], ArrayBytes(b));
    AtSplit(data, off + 1, ScalarBytes(|b|), b);
    OneByte(kind);
    NumberBack(data, off, kind, 1);
    ScalarBack(data, off + 1, |b|);
  }

  /** A negative length is refused by strings and by byte arrays, each in its own way. */
  lemma NegativeRefused(data: seq<Byte>, off: nat, kind: Byte, v: int)
    requires v < 0 && InRange(v, 8) && At(data, off, [kind] + ScalarBytes(v))
    ensures StringAt(data, off).result == Err(NEGATIVE) && ArrayAt(data, off + 1).result == Err(UNDERFLOW)
  {
    hide ScalarAt, ScalarBytes, LeBytes, BytesVal, Pow;
    AtSplit(data, off, [kind], ScalarBytes(v));
    OneByte(kind);
    NumberBack(data, off, kind, 1);
    ScalarBack(data, off + 1, v);
  }

  /** A prefix that is none of the four widths is refused. */
  lemma BadPrefixRefused(data: seq<Byte>, off: nat)
    requires off < |data| && !IsWidth(data[off])
    ensures ScalarAt(data, off) == Read(Err(BAD_PREFIX), off + 1)
  {
    hide LeBytes, BytesVal, Pow;
    OneByte(data[off]);
    assert data[off..off + 1] == LeBytes(data[off], 1);
    NumberBack(data, off, data[off], 1);
  }

  // --- The objects -------------------------------------------------------------------------------

  class Writer {
    var data: seq<Byte>

    constructor ()
      ensures data == []
    {
      data := [];
    }

    method WriteBytes(b: seq<Byte>)
      modifies this
      ensures data == old(data) + b
    {
      data := data + b;
    }

    /** An unsigned integer of `width` bytes. */
    method WriteNumber(v: nat, width: nat)
      modifies this
      ensures data == old(data) + LeBytes(v, width)
    {
      for i := 0 to width
        invariant data == old(data) + LeBytes(v, i)
      {
        assert LeBytes(v, i + 1) == LeBytes(v, i) + [ByteAt(v, i)];
        data := data + [ByteAt(v, i)];
      }
    }

    method WriteScalar(v: int)
      requires InRange(v, 8)
      modifies this
      ensures data == old(data) + ScalarBytes(v)
    {
      hide LeBytes, Pow;
      var w := Width(v);
      OneByte(w);
      WriteNumber(w, 1);
      WriteNumber(TwosComplement(v, w), w);
    }

    method WriteByteArray(b: seq<Byte>)
      requires InRange(|b|, 8)
      modifies this
      ensures data == old(data) + ArrayBytes(b)
    {
      hide ScalarBytes;
      WriteScalar(|b|);
      WriteBytes(b);
    }

    method WriteText(s: seq<Byte>)
      requires InRange(|ToUtf16(s)|, 8)
      modifies this
      ensures data == old(data) + TextBytes(s)
    {
      hide ScalarBytes, LeBytes, UnitBytes, ToUtf16, Pow;
      var w := ConvertToUtf16(s);
      OneByte(UNICODE);
      WriteNumber(UNICODE, 1);
      WriteScalar(|w|);
      WriteBytes(UnitBytes(w));
    }
  }

  class Reader {
    const data: seq<Byte>
    var offset: nat

    ghost predicate Valid()
      reads this
    {
      offset <= |data|
    }

    constructor (bytes: seq<Byte>)
      ensures Valid() && data == bytes && offset == 0
    {
      data := bytes;
      offset := 0;
    }

    method Take(count: nat) returns (r: Result<seq<Byte>>)
      requires Valid()
      modifies this
      ensures Valid() && Read(r, offset) == TakeAt(data, old(offset), count)
    {
      if count > |data| - offset {
        return Err(UNDERFLOW);
      }
      r := Ok(data[offset..offset + count]);
      offset := offset + count;
    }

    method ReadNumber(width: nat) returns (r: Result<nat>)
      requires Valid()
      modifies this
      ensures Valid() && Read(r, offset) == NumberAt(data, old(offset), width)
    {
      var raw := Take(width);
      if raw.Err? {
        return Err(raw.error);
      }
      return Ok(BytesVal(raw.value));
    }

    method ReadScalar() returns (r: Result<int>)
      requires Valid()
      modifies this
      ensures Valid() && Read(r, offset) == ScalarAt(data, old(offset))
    {
      hide NumberAt;
      var prefix := ReadNumber(1);
      if prefix.Err? {
        return Err(prefix.error);
      }
      if !IsWidth(prefix.value) {
        return Err(BAD_PREFIX);
      }
      var u := ReadNumber(prefix.value);
      if u.Err? {
        return Err(u.error);
      }
      return Ok(Signed(u.value, prefix.value));
    }

    method ReadLength() returns (r: Result<nat>)
      requires Valid()
      modifies this
      ensures Valid() && Read(r, offset) == LengthAt(data, old(offset))
    {
      hide ScalarAt;
      var length := ReadScalar();
      if length.Err? {
        return Err(length.error);
      }
      if length.value < 0 || length.value > |data| - offset {
        return Err(UNDERFLOW);
      }
      return Ok(length.value);
    }

    method ReadByteArray() returns (r: Result<seq<Byte>>)
      requires Valid()
      modifies this
      ensures Valid() && Read(r, offset) == ArrayAt(data, old(offset))
    {
      hide LengthAt;
      var n := ReadLength();
      if n.Err? {
        return Err(n.error);
      }
      r := Take(n.value);
    }

    method ReadString() returns (r: Result<seq<Byte>>)
      requires Valid()
      modifies this
      ensures Valid() && Read(r, offset) == StringAt(data, old(offset))
    {
      hide NumberAt, ScalarAt, ToUtf8, BytesUnits;
      var kind := ReadNumber(1);
      if kind.Err? {
        return Err(kind.error);
      }
      var length := ReadScalar();
      if length.Err? {
        return Err(length.error);
      }
      if length.value < 0 {
        return Err(NEGATIVE);
      }
      if kind.value != UNICODE {
        r := Take(length.value);
        return;
      }
      var raw := Take(2 * length.value);
      if raw.Err? {
        return raw;
      }
      var utf8 := ConvertToUtf8(BytesUnits(raw.value));
      return Ok(utf8);
    }
  }
}
