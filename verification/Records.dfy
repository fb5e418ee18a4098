/**
  Game structures on the wire: fields in a fixed order, integers little-endian, strings as UTF-16.
 */
module Records {
  import opened Arith
  import opened Bytes
  import opened Utf
  import opened Wire

  /** An unsigned integer of some width, or a text. */
  datatype Kind = Number(width: nat) | Text

  datatype Field = Num(value: nat) | Str(text: seq<Byte>)

  predicate Fits(kind: Kind, field: Field) {
    match kind
    case Number(width) => field.Num? && field.value < Pow(256, width)
    case Text => field.Str? && InRange(|ToUtf16(field.text)|, 8)
  }

  predicate AllFit(layout: seq<Kind>, fields: seq<Field>) {
    |fields| == |layout| && forall i | 0 <= i < |layout| :: Fits(layout[i], fields[i])
  }

  function FieldBytes(kind: Kind, field: Field): seq<Byte>
    requires Fits(kind, field)
  {
    match kind
    case Number(width) => LeBytes(field.value, width)
    case Text => TextBytes(field.text)
  }

  function FieldAt(kind: Kind, data: seq<Byte>, off: nat): (r: Read<Field>)
    requires off <= |data|
    ensures off <= r.next <= |data|
  {
    match kind
    case Number(width) =>
      var n := NumberAt(data, off, width);
      if n.result.Err? then Read(Err(n.result.error), n.next) else Read(Ok(Num(n.result.value)), n.next)
    case Text =>
      var t := StringAt(data, off);
      if t.result.Err? then Read(Err(t.result.error), t.next) else Read(Ok(Str(t.result.value)), t.next)
  }

  function Written(layout: seq<Kind>, fields: seq<Field>): seq<Byte>
    requires AllFit(layout, fields)
  {
    if layout == [] then []
    else
      var k := |layout| - 1;
      Written(layout[..k], fields[..k]) + FieldBytes(layout[k], fields[k])
  }

  /** Reading stops at the first field that throws. */
  function FieldsAt(layout: seq<Kind>, data: seq<Byte>, off: nat): (r: Read<seq<Field>>)
    requires off <= |data|
    ensures off <= r.next <= |data|
  {
    if layout == [] then Read(Ok([]), off)
    else
      var k := |layout| - 1;
      var before := FieldsAt(layout[..k], data, off);
      if before.result.Err? then before
      else
        var f := FieldAt(layout[k], data, before.next);
        if f.result.Err? then Read(Err(f.result.error), f.next)
        else Read(Ok(before.result.value + [f.result.value]), f.next)
  }

  /** What a reader makes of a field. */
  function Readable(field: Field): Field { if field.Str? then Str(ToUtf8(ToUtf16(field.text))) else field }

  function AllReadable(fields: seq<Field>): (r: seq<Field>)
    ensures |r| == |fields|
  {
    seq(|fields|, i requires 0 <= i < |fields| => Readable(fields[i]))
  }

  lemma FieldBack(kind: Kind, field: Field, data: seq<Byte>, off: nat)
    requires Fits(kind, field) && At(data, off, FieldBytes(kind, field))
    ensures FieldAt(kind, data, off) == Read(Ok(Readable(field)), off + |FieldBytes(kind, field)|)
  {
    hide NumberAt, StringAt, LeBytes, WideBytes, ToUtf16, ToUtf8, Pow;
    if kind.Number? {
      NumberBack(data, off, field.value, kind.width);
    } else {
      WideBack(data, off, ToUtf16(field.text));
    }
  }

  lemma {:induction false} FieldsBack(layout: seq<Kind>, fields: seq<Field>, data: seq<Byte>, off: nat)
    requires AllFit(layout, fields) && At(data, off, Written(layout, fields))
    ensures FieldsAt(layout, data, off) == Read(Ok(AllReadable(fields)), off + |Written(layout, fields)|)
  {
    hide Fits, FieldBytes, FieldAt, Readable;
    if layout != [] {
      var k := |layout| - 1;
      var start := Written(layout[..k], fields[..k]);
      AtSplit(data, off, start, FieldBytes(layout[k], fields[k]));
      FieldsBack(layout[..k], fields[..k], data, off);
      FieldBack(layout[k], fields[k], data, off + |start|);
      assert AllReadable(fields) == AllReadable(fields[..k]) + [Readable(fields[k])];
    }
  }

  /** The texts survive exactly when they are free of spelled-out surrogate pairs. */
  predicate TextsPairFree(fields: seq<Field>) {
    forall i | 0 <= i < |fields| :: fields[i].Str? ==> PairFree(fields[i].text)
  }

  lemma ReadableExactly(fields: seq<Field>)
    ensures AllReadable(fields) == fields <==> TextsPairFree(fields)
  {
    hide ToUtf8, ToUtf16, PairFree;
    forall i | 0 <= i < |fields|
      ensures AllReadable(fields)[i] == fields[i] <==> (fields[i].Str? ==> PairFree(fields[i].text))
    {
      if fields[i].Str? { Utf8RoundTripExact(fields[i].text); }
    }
  }

  /** Any structure written field by field is read back, whatever stands around it, exactly when its texts
      survive; one without texts always is. */
  lemma RecordBack(layout: seq<Kind>, fields: seq<Field>, data: seq<Byte>, off: nat)
    requires AllFit(layout, fields) && At(data, off, Written(layout, fields))
    ensures FieldsAt(layout, data, off).next == off + |Written(layout, fields)|
    ensures FieldsAt(layout, data, off).result == Ok(fields) <==> TextsPairFree(fields)
  {
    hide FieldsAt, Written, AllFit, TextsPairFree;
    FieldsBack(layout, fields, data, off);
    ReadableExactly(fields);
  }

  method WriteFields(w: Writer, layout: seq<Kind>, fields: seq<Field>)
    requires AllFit(layout, fields)
    modifies w
    ensures w.data == old(w.data) + Written(layout, fields)
  {
    hide Fits, LeBytes, ToUtf16, WideBytes;
    for i := 0 to |layout|
      invariant w.data == old(w.data) + Written(layout[..i], fields[..i])
    {
      Prefix(layout, fields, i);
      WriteField(w, layout[i], fields[i]);
    }
    assert layout[..|layout|] == layout && fields[..|layout|] == fields;
  }

  method WriteField(w: Writer, kind: Kind, field: Field)
    requires Fits(kind, field)
    modifies w
    ensures w.data == old(w.data) + FieldBytes(kind, field)
  {
    hide LeBytes, ToUtf16, WideBytes, Pow;
    match kind
    case Number(width) => w.WriteNumber(field.value, width);
    case Text => w.WriteText(field.text);
  }

  lemma Prefix(layout: seq<Kind>, fields: seq<Field>, i: nat)
    requires AllFit(layout, fields) && i < |layout|
    ensures AllFit(layout[..i + 1], fields[..i + 1]) && AllFit(layout[..i], fields[..i])
    ensures Written(layout[..i + 1], fields[..i + 1]) ==
            Written(layout[..i], fields[..i]) + FieldBytes(layout[i], fields[i])
  {
    hide Fits, FieldBytes;
    assert layout[..i + 1][..i] == layout[..i] && fields[..i + 1][..i] == fields[..i];
  }

  method ReadFields(r: Reader, layout: seq<Kind>) returns (result: Result<seq<Field>>)
    requires r.Valid()
    modifies r
    ensures r.Valid() && Read(result, r.offset) == FieldsAt(layout, r.data, old(r.offset))
  {
    hide FieldAt;
    var fields: seq<Field> := [];
    for i := 0 to |layout|
      invariant r.Valid() && Read(Ok(fields), r.offset) == FieldsAt(layout[..i], r.data, old(r.offset))
    {
      assert layout[..i + 1][..i] == layout[..i];
      var field := ReadField(r, layout[i]);
      if field.Err? {
        FailureStops(layout, r.data, old(r.offset), i + 1);
        return Err(field.error);
      }
      fields := fields + [field.value];
    }
    assert layout[..|layout|] == layout;
    return Ok(fields);
  }

  lemma {:induction false} FailureStops(layout: seq<Kind>, data: seq<Byte>, off: nat, i: nat)
    requires i <= |layout| && off <= |data| && FieldsAt(layout[..i], data, off).result.Err?
    ensures FieldsAt(layout, data, off) == FieldsAt(layout[..i], data, off)
  {
    hide FieldAt;
    if i < |layout| {
      var k := |layout| - 1;
      assert layout[..k][..i] == layout[..i];
      FailureStops(layout[..k], data, off, i);
    } else {
      assert layout[..i] == layout;
    }
  }

  method ReadField(r: Reader, kind: Kind) returns (result: Result<Field>)
    requires r.Valid()
    modifies r
    ensures r.Valid() && Read(result, r.offset) == FieldAt(kind, r.data, old(r.offset))
  {
    hide NumberAt, StringAt;
    match kind
    case Number(width) =>
      var n := r.ReadNumber(width);
      result := if n.Err? then Err(n.error) else Ok(Num(n.value));
    case Text =>
      var t := r.ReadString();
      result := if t.Err? then Err(t.error) else Ok(Str(t.value));
  }

  // --- The structures ----------------------------------------------------------------------------

  datatype RoomInfo = RoomInfo(
    number: nat, u16_06: nat, u16_08: nat, players: nat, maxPlayers: nat, track: nat, mode: nat, maxLap: nat,
    u8_0e: nat, title: seq<Byte>, password: seq<Byte>, str_18: seq<Byte>, state: nat, u8_26: nat, u8_27: nat,
    slots: seq<nat>, hasPassword: nat)

  const ROOM_LAYOUT: seq<Kind> :=
    [Number(2), Number(2), Number(2), Number(1), Number(1), Number(1), Number(1), Number(1), Number(1),
     Text, Text, Text, Number(1), Number(1), Number(1),
     Number(1), Number(1), Number(1), Number(1), Number(1), Number(1), Number(1), Number(1), Number(1)]

  function RoomFields(i: RoomInfo): seq<Field>
    requires |i.slots| == 8
  {
    [Num(i.number), Num(i.u16_06), Num(i.u16_08), Num(i.players), Num(i.maxPlayers), Num(i.track), Num(i.mode),
     Num(i.maxLap), Num(i.u8_0e), Str(i.title), Str(i.password), Str(i.str_18),
     Num(i.state), Num(i.u8_26), Num(i.u8_27),
     Num(i.slots[0]), Num(i.slots[1]), Num(i.slots[2]), Num(i.slots[3]),
     Num(i.slots[4]), Num(i.slots[5]), Num(i.slots[6]), Num(i.slots[7]), Num(i.hasPassword)]
  }

  function NumberIn(f: seq<Field>, i: nat): nat { if i < |f| && f[i].Num? then f[i].value else 0 }

  function TextIn(f: seq<Field>, i: nat): seq<Byte> { if i < |f| && f[i].Str? then f[i].text else [] }

  function SlotsIn(f: seq<Field>): (slots: seq<nat>)
    ensures |slots| == 8
  {
    seq(8, i requires 0 <= i < 8 => NumberIn(f, 15 + i))
  }

  function RoomOf(f: seq<Field>): RoomInfo {
    RoomInfo(NumberIn(f, 0), NumberIn(f, 1), NumberIn(f, 2), NumberIn(f, 3), NumberIn(f, 4), NumberIn(f, 5),
      NumberIn(f, 6), NumberIn(f, 7), NumberIn(f, 8), TextIn(f, 9), TextIn(f, 10), TextIn(f, 11), NumberIn(f, 12),
      NumberIn(f, 13), NumberIn(f, 14), SlotsIn(f), NumberIn(f, 23))
  }

  /** A room in range of its field types. */
  predicate ProperRoom(i: RoomInfo) { |i.slots| == 8 && AllFit(ROOM_LAYOUT, RoomFields(i)) }

  function RoomBytes(i: RoomInfo): seq<Byte>
    requires ProperRoom(i)
  {
    Written(ROOM_LAYOUT, RoomFields(i))
  }

  function RoomAt(data: seq<Byte>, off: nat): Read<RoomInfo>
    requires off <= |data|
  {
    var f := FieldsAt(ROOM_LAYOUT, data, off);
    if f.result.Err? then Read(Err(f.result.error), f.next) else Read(Ok(RoomOf(f.result.value)), f.next)
  }

  /** A written room is read back, whatever stands around it, exactly when its three texts survive UTF-16. */
  lemma RoomBack(i: RoomInfo, data: seq<Byte>, off: nat)
    requires ProperRoom(i) && At(data, off, RoomBytes(i))
    ensures RoomAt(data, off).next == off + |RoomBytes(i)|
    ensures RoomAt(data, off).result == Ok(i) <==> PairFree(i.title) && PairFree(i.password) && PairFree(i.str_18)
    ensures WellFormed(i.title) && WellFormed(i.password) && WellFormed(i.str_18) ==> RoomAt(data, off).result == Ok(i)
  {
    hide FieldsAt, Written, PairFree, AllFit, ToUtf8, ToUtf16, WellFormed;
    FieldsBack(ROOM_LAYOUT, RoomFields(i), data, off);
    ReadRoomIs(i);
    Utf8RoundTripExact(i.title);
    Utf8RoundTripExact(i.password);
    Utf8RoundTripExact(i.str_18);
    if WellFormed(i.title) && WellFormed(i.password) && WellFormed(i.str_18) {
      WellFormedIsPairFree(i.title);
      WellFormedIsPairFree(i.password);
      WellFormedIsPairFree(i.str_18);
    }
  }

  lemma ReadableNumber(fields: seq<Field>, i: nat)
    requires i < |fields| && fields[i].Num?
    ensures NumberIn(AllReadable(fields), i) == fields[i].value
  {
  }

  lemma ReadableText(fields: seq<Field>, i: nat)
    requires i < |fields| && fields[i].Str?
    ensures TextIn(AllReadable(fields), i) == ToUtf8(ToUtf16(fields[i].text))
  {
  }

  lemma ReadRoomIs(i: RoomInfo)
    requires |i.slots| == 8
    ensures RoomOf(AllReadable(RoomFields(i))) ==
            i.(title := ToUtf8(ToUtf16(i.title)), password := ToUtf8(ToUtf16(i.password)),
               str_18 := ToUtf8(ToUtf16(i.str_18)))
  {
    hide ToUtf8, ToUtf16, AllReadable, NumberIn, TextIn, SlotsIn;
    var f := RoomFields(i);
    forall k | 0 <= k < 24 && !(9 <= k < 12) ensures NumberIn(AllReadable(f), k) == f[k].value {
      ReadableNumber(f, k);
    }
    forall k | 9 <= k < 12 ensures TextIn(AllReadable(f), k) == ToUtf8(ToUtf16(f[k].text)) {
      ReadableText(f, k);
    }
    ReadSlots(i);
  }

  lemma ReadSlots(i: RoomInfo)
    requires |i.slots| == 8
    ensures SlotsIn(AllReadable(RoomFields(i))) == i.slots
  {
    hide AllReadable, NumberIn;
    var f := RoomFields(i);
    forall k | 0 <= k < 8 ensures SlotsIn(AllReadable(f))[k] == i.slots[k] {
      assert f[15 + k] == Num(i.slots[k]);
      ReadableNumber(f, 15 + k);
    }
  }

  const AVATAR_LAYOUT: seq<Kind> :=
    [Number(4), Number(4), Number(4), Number(4), Number(4), Number(4), Number(1),
     Number(4), Number(4), Number(4), Number(4), Number(4), Number(4), Number(4),
     Number(4), Number(4), Number(4), Number(4), Number(4), Number(4), Number(4)]

  /** An avatar, all numbers, always comes back. */
  lemma AvatarBack(fields: seq<Field>, data: seq<Byte>, off: nat)
    requires AllFit(AVATAR_LAYOUT, fields) && At(data, off, Written(AVATAR_LAYOUT, fields))
    ensures FieldsAt(AVATAR_LAYOUT, data, off) == Read(Ok(fields), off + |Written(AVATAR_LAYOUT, fields)|)
  {
    hide FieldsAt, Written, Pow;
    RecordBack(AVATAR_LAYOUT, fields, data, off);
    assert TextsPairFree(fields) by {
      forall i | 0 <= i < |fields| ensures fields[i].Num? { assert Fits(AVATAR_LAYOUT[i], fields[i]); }
    }
  }

  // --- Where each field stands -------------------------------------------------------------------

  lemma WrittenNext(layout: seq<Kind>, fields: seq<Field>, k: nat, kind: Kind)
    requires AllFit(layout, fields) && k < |layout| && layout[k] == kind
    ensures AllFit(layout[..k + 1], fields[..k + 1]) && AllFit(layout[..k], fields[..k]) && Fits(kind, fields[k])
    ensures Written(layout[..k + 1], fields[..k + 1]) == Written(layout[..k], fields[..k]) + FieldBytes(kind, fields[k])
  {
    hide Fits, FieldBytes;
    Prefix(layout, fields, k);
  }

  /** A number of `width` bytes follows. */
  lemma NumberNext(layout: seq<Kind>, fields: seq<Field>, k: nat, width: nat, v: nat)
    requires AllFit(layout, fields) && k < |layout| && layout[k] == Number(width) && fields[k] == Num(v)
    ensures AllFit(layout[..k + 1], fields[..k + 1]) && AllFit(layout[..k], fields[..k])
    ensures Written(layout[..k + 1], fields[..k + 1]) == Written(layout[..k], fields[..k]) + LeBytes(v, width)
  {
    hide Written, LeBytes, Pow;
    WrittenNext(layout, fields, k, Number(width));
  }

  /** A text follows. */
  lemma TextNext(layout: seq<Kind>, fields: seq<Field>, k: nat, text: seq<Byte>)
    requires AllFit(layout, fields) && k < |layout| && layout[k] == Text && fields[k] == Str(text)
    ensures AllFit(layout[..k + 1], fields[..k + 1]) && AllFit(layout[..k], fields[..k])
    ensures InRange(|ToUtf16(text)|, 8)
    ensures Written(layout[..k + 1], fields[..k + 1]) == Written(layout[..k], fields[..k]) + TextBytes(text)
  {
    hide Written, ToUtf16, WideBytes;
    WrittenNext(layout, fields, k, Text);
  }

  lemma NothingWritten(layout: seq<Kind>, fields: seq<Field>)
    ensures AllFit(layout[..0], fields[..0]) && Written(layout[..0], fields[..0]) == []
  {
  }

  function RoomHead(i: RoomInfo): seq<Byte> {
    LeBytes(i.number, 2) + LeBytes(i.u16_06, 2) + LeBytes(i.u16_08, 2)
    + LeBytes(i.players, 1) + LeBytes(i.maxPlayers, 1)
    + LeBytes(i.track, 1) + LeBytes(i.mode, 1) + LeBytes(i.maxLap, 1) + LeBytes(i.u8_0e, 1)
  }

  function RoomTexts(i: RoomInfo): seq<Byte>
    requires InRange(|ToUtf16(i.title)|, 8) && InRange(|ToUtf16(i.password)|, 8) && InRange(|ToUtf16(i.str_18)|, 8)
  {
    TextBytes(i.title) + TextBytes(i.password) + TextBytes(i.str_18)
  }

  function RoomTail(i: RoomInfo): seq<Byte>
    requires |i.slots| == 8
  {
    LeBytes(i.state, 1) + LeBytes(i.u8_26, 1) + LeBytes(i.u8_27, 1)
    + LeBytes(i.slots[0], 1) + LeBytes(i.slots[1], 1) + LeBytes(i.slots[2], 1) + LeBytes(i.slots[3], 1)
    + LeBytes(i.slots[4], 1) + LeBytes(i.slots[5], 1) + LeBytes(i.slots[6], 1) + LeBytes(i.slots[7], 1)
    + LeBytes(i.hasPassword, 1)
  }

  lemma RoomHeadSpelled(i: RoomInfo)
    requires ProperRoom(i)
    ensures AllFit(ROOM_LAYOUT[..9], RoomFields(i)[..9])
    ensures Written(ROOM_LAYOUT[..9], RoomFields(i)[..9]) == RoomHead(i)
  {
    hide Written, AllFit, LeBytes;
    var l, f := ROOM_LAYOUT, RoomFields(i);
    NothingWritten(l, f);
    NumberNext(l, f, 0, 2, i.number);
    NumberNext(l, f, 1, 2, i.u16_06);
    NumberNext(l, f, 2, 2, i.u16_08);
    NumberNext(l, f, 3, 1, i.players);
    NumberNext(l, f, 4, 1, i.maxPlayers);
    NumberNext(l, f, 5, 1, i.track);
    NumberNext(l, f, 6, 1, i.mode);
    NumberNext(l, f, 7, 1, i.maxLap);
    NumberNext(l, f, 8, 1, i.u8_0e);
  }

  lemma RoomTextsSpelled(i: RoomInfo)
    requires ProperRoom(i)
    ensures InRange(|ToUtf16(i.title)|, 8) && InRange(|ToUtf16(i.password)|, 8) && InRange(|ToUtf16(i.str_18)|, 8)
    ensures AllFit(ROOM_LAYOUT[..12], RoomFields(i)[..12])
    ensures Written(ROOM_LAYOUT[..12], RoomFields(i)[..12]) == RoomHead(i) + RoomTexts(i)
  {
    hide Written, AllFit, RoomHead, ToUtf16, WideBytes;
    var l, f := ROOM_LAYOUT, RoomFields(i);
    RoomHeadSpelled(i);
    TextNext(l, f, 9, i.title);
    TextNext(l, f, 10, i.password);
    TextNext(l, f, 11, i.str_18);
  }

  /** A room on the wire: three 16-bit numbers, six bytes, three texts, three bytes, the eight slots and a flag. */
  lemma RoomSpelled(i: RoomInfo)
    requires ProperRoom(i)
    ensures InRange(|ToUtf16(i.title)|, 8) && InRange(|ToUtf16(i.password)|, 8) && InRange(|ToUtf16(i.str_18)|, 8)
    ensures RoomBytes(i) == RoomHead(i) + RoomTexts(i) + RoomTail(i)
  {
    hide Written, AllFit, RoomHead, RoomTexts, LeBytes, ToUtf16;
    var l, f := ROOM_LAYOUT, RoomFields(i);
    RoomTextsSpelled(i);
    NumberNext(l, f, 12, 1, i.state);
    NumberNext(l, f, 13, 1, i.u8_26);
    NumberNext(l, f, 14, 1, i.u8_27);
    NumberNext(l, f, 15, 1, i.slots[0]);
    NumberNext(l, f, 16, 1, i.slots[1]);
    NumberNext(l, f, 17, 1, i.slots[2]);
    NumberNext(l, f, 18, 1, i.slots[3]);
    NumberNext(l, f, 19, 1, i.slots[4]);
    NumberNext(l, f, 20, 1, i.slots[5]);
    NumberNext(l, f, 21, 1, i.slots[6]);
    NumberNext(l, f, 22, 1, i.slots[7]);
    NumberNext(l, f, 23, 1, i.hasPassword);
    assert l[..24] == l && f[..24] == f;
  }

  /** In particular the six single bytes stand at offsets 6 to 11, whatever the values. */
  lemma RoomOffsets(i: RoomInfo)
    requires ProperRoom(i)
    ensures |RoomBytes(i)| >= 12 && i.players < 256 && i.maxPlayers < 256 && i.track < 256
    ensures i.mode < 256 && i.maxLap < 256 && i.u8_0e < 256
    ensures RoomBytes(i)[6..12] == [i.players, i.maxPlayers, i.track, i.mode, i.maxLap, i.u8_0e]
  {
    hide Written, AllFit, RoomTexts, RoomTail, ToUtf16;
    RoomSpelled(i);
    RoomBytesFit(i);
    OneByte(i.players);
    OneByte(i.maxPlayers);
    OneByte(i.track);
    OneByte(i.mode);
    OneByte(i.maxLap);
    OneByte(i.u8_0e);
    var head := RoomHead(i);
    assert head[6..12] == [i.players, i.maxPlayers, i.track, i.mode, i.maxLap, i.u8_0e];
    assert RoomBytes(i)[6..12] == head[6..12];
  }

  lemma RoomBytesFit(i: RoomInfo)
    requires ProperRoom(i)
    ensures i.players < 256 && i.maxPlayers < 256 && i.track < 256 && i.mode < 256 && i.maxLap < 256 && i.u8_0e < 256
  {
    assert Pow(256, 1) == 256;
    var f := RoomFields(i);
    assert Fits(ROOM_LAYOUT[3], f[3]) && Fits(ROOM_LAYOUT[4], f[4]) && Fits(ROOM_LAYOUT[5], f[5]);
    assert Fits(ROOM_LAYOUT[6], f[6]) && Fits(ROOM_LAYOUT[7], f[7]) && Fits(ROOM_LAYOUT[8], f[8]);
  }

  /** Where field `k` of an avatar stands: six words, a byte, fourteen words. */
  function AvatarOffset(k: nat): nat { if k <= 6 then 4 * k else 25 + 4 * (k - 7) }

  lemma AvatarKind(k: nat)
    requires k < 21
    ensures AVATAR_LAYOUT[k] == Number(if k == 6 then 1 else 4)
  {
    assert k == 0 || k == 1 || k == 2 || k == 3 || k == 4 || k == 5 || k == 6 || k == 7 || k == 8 || k == 9 || k == 10
      || k == 11 || k == 12 || k == 13 || k == 14 || k == 15 || k == 16 || k == 17 || k == 18 || k == 19 || k == 20;
  }

  lemma {:induction false} AvatarUpTo(fields: seq<Field>, k: nat)
    requires AllFit(AVATAR_LAYOUT, fields) && k <= 21
    ensures AllFit(AVATAR_LAYOUT[..k], fields[..k])
    ensures |Written(AVATAR_LAYOUT[..k], fields[..k])| == AvatarOffset(k)
  {
    hide Written, LeBytes;
    if k == 0 {
      NothingWritten(AVATAR_LAYOUT, fields);
    } else {
      AvatarUpTo(fields, k - 1);
      AvatarKind(k - 1);
      assert Fits(AVATAR_LAYOUT[k - 1], fields[k - 1]);
      var width := if k - 1 == 6 then 1 else 4;
      NumberNext(AVATAR_LAYOUT, fields, k - 1, width, fields[k - 1].value);
      LeBytesLong(fields[k - 1].value, width);
    }
  }

  lemma LeBytesLong(v: nat, n: nat)
    ensures |LeBytes(v, n)| == n
  {
  }

  lemma {:induction false} WrittenPrefix(layout: seq<Kind>, fields: seq<Field>, k: nat)
    requires AllFit(layout, fields) && k <= |layout|
    ensures AllFit(layout[..k], fields[..k]) && Written(layout[..k], fields[..k]) <= Written(layout, fields)
    decreases |layout| - k
  {
    hide Fits, FieldBytes;
    if k == |layout| {
      assert layout[..k] == layout && fields[..k] == fields;
    } else {
      WrittenPrefix(layout, fields, k + 1);
      Prefix(layout, fields, k);
    }
  }

  /** An avatar is 81 bytes, and each field stands at its offset. */
  lemma AvatarSpelled(fields: seq<Field>, k: nat)
    requires AllFit(AVATAR_LAYOUT, fields) && k < 21
    ensures |Written(AVATAR_LAYOUT, fields)| == 81 && fields[k].Num?
    ensures At(Written(AVATAR_LAYOUT, fields), AvatarOffset(k), LeBytes(fields[k].value, if k == 6 then 1 else 4))
  {
    hide Written, LeBytes;
    var width := if k == 6 then 1 else 4;
    AvatarUpTo(fields, 21);
    assert AVATAR_LAYOUT[..21] == AVATAR_LAYOUT && fields[..21] == fields;
    AvatarUpTo(fields, k);
    AvatarKind(k);
    assert Fits(AVATAR_LAYOUT[k], fields[k]);
    NumberNext(AVATAR_LAYOUT, fields, k, width, fields[k].value);
    WrittenPrefix(AVATAR_LAYOUT, fields, k + 1);
    LeBytesLong(fields[k].value, width);
  }
}
