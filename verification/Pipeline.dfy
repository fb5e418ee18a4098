/**
  Encrypted messages end to end: sealed with a serial, framed, cut into arbitrary reads, split, unsealed.
 */
module Pipeline {
  import opened Arith
  import opened Bytes
  import opened Wire
  import opened Framing
  import Rc4

  const RELIABLE: Byte := 36
  const UNRELIABLE: Byte := 37

  /** `uint16_t` */
  type Serial = x: nat | x < 0x1_0000

  function Successor(s: Serial): Serial { (s + 1) % 0x1_0000 }

  function Advanced(s: Serial, n: nat): Serial { (s + n) % 0x1_0000 }

  lemma AdvancedStep(s: Serial, n: nat)
    ensures Advanced(Successor(s), n) == Advanced(s, n + 1)
  {
  }

  lemma AdvancedNone(s: Serial)
    ensures Advanced(s, 0) == s
  {
  }

  /** Anything that fits in memory. */
  type Payload = p: seq<Byte> | |p| < 0x4000_0000_0000_0000

  lemma PayloadFits(p: Payload)
    ensures InRange(|p| + 2, 8)
  {
  }

  /** What `send` makes of a payload: the serial and the payload under one restarted key stream. */
  function Sealed(key: seq<Byte>, serial: Serial, payload: Payload): seq<Byte>
    requires key != []
  {
    PayloadFits(payload);
    [RELIABLE, 1] + ScalarBytes(|payload| + 2) + Rc4.Applied(key, LeBytes(serial, 2) + payload)
  }

  /** What becomes of one message before it is looked at: it is passed on as it is, its content is, it is
      dropped, or reading it throws. */
  datatype Entry = Plain(message: seq<Byte>) | Inner(payload: seq<Byte>) | Dropped | Faulty

  predicate IsEncrypted(message: seq<Byte>) { message != [] && (message[0] == RELIABLE || message[0] == UNRELIABLE) }

  /** `on_encrypted` */
  function Unsealed(key: seq<Byte>, expected: Serial, message: seq<Byte>): Entry
    requires IsEncrypted(message)
  {
    if key == [] then Dropped
    else
      var mode := NumberAt(message, 1, 1);
      if mode.result.Err? then Faulty
      else
        var length := ScalarAt(message, mode.next);
        if length.result.Err? then Faulty
        else
          var plain := Rc4.Applied(key, message[length.next..]);
          if message[0] == UNRELIABLE then Inner(plain)
          else if |plain| < 2 then Faulty
          else if BytesVal(plain[..2]) != expected then Dropped
          else Inner(plain[2..])
  }

  function Entered(key: seq<Byte>, expected: Serial, message: seq<Byte>): Entry {
    if message == [] then Faulty
    else if IsEncrypted(message) then Unsealed(key, expected, message)
    else Plain(message)
  }

  /** Only accepted content of a reliable message moves the serial. */
  function NextSerial(key: seq<Byte>, expected: Serial, message: seq<Byte>): Serial {
    if IsEncrypted(message) && message[0] == RELIABLE && Unsealed(key, expected, message).Inner?
    then Successor(expected) else expected
  }

  // --- One message -------------------------------------------------------------------------------

  lemma SerialFits(s: Serial)
    ensures s < Pow(256, 2)
  {
    assert Pow(256, 1) == 256 && Pow(256, 0) == 1;
  }

  lemma HeaderRead(serial: Serial, payload: Payload, cipher: seq<Byte>)
    ensures InRange(|payload| + 2, 8)
    ensures var m := [RELIABLE, 1] + ScalarBytes(|payload| + 2) + cipher;
            && NumberAt(m, 1, 1) == Read(Ok(1), 2)
            && ScalarAt(m, 2).result.Ok? && m[ScalarAt(m, 2).next..] == cipher
  {
    hide ScalarBytes, ScalarAt, LeBytes, BytesVal, Pow;
    PayloadFits(payload);
    var length := ScalarBytes(|payload| + 2);
    var m := [RELIABLE, 1] + length + cipher;
    OneByte(1);
    assert At(m, 1, LeBytes(1, 1));
    NumberBack(m, 1, 1, 1);
    assert m[2..2 + |length|] == length;
    ScalarBack(m, 2, |payload| + 2);
  }

  /** A sealed message is opened to its payload exactly when its serial is the expected one; any other serial
      is dropped.  Either way the next expected serial follows the verdict. */
  lemma SealedOpens(key: seq<Byte>, serial: Serial, expected: Serial, payload: Payload)
    requires key != []
    ensures var m := Sealed(key, serial, payload);
            && IsEncrypted(m)
            && Entered(key, expected, m) == (if serial == expected then Inner(payload) else Dropped)
            && NextSerial(key, expected, m) == (if serial == expected then Successor(expected) else expected)
  {
    hide ScalarBytes, NumberAt, ScalarAt, LeBytes, BytesVal, Pow, Rc4.Applied;
    PayloadFits(payload);
    var content := LeBytes(serial, 2) + payload;
    var cipher := Rc4.Applied(key, content);
    HeaderRead(serial, payload, cipher);
    Rc4.AppliedTwice(key, content);
    SerialFits(serial);
    ValSpellFits(serial, 2);
    assert content[..2] == LeBytes(serial, 2) && content[2..] == payload;
  }

  /** An unreliable envelope has no serial: whatever is expected, it opens to its whole content and leaves the
      expectation as it is. */
  lemma UnreliableOpens(key: seq<Byte>, expected: Serial, mode: Byte, length: int, content: seq<Byte>)
    requires key != [] && InRange(length, 8)
    ensures var m := [UNRELIABLE, mode] + ScalarBytes(length) + Rc4.Applied(key, content);
            Entered(key, expected, m) == Inner(content) && NextSerial(key, expected, m) == expected
  {
    hide ScalarBytes, NumberAt, ScalarAt, LeBytes, BytesVal, Pow, Rc4.Applied;
    var cipher := Rc4.Applied(key, content);
    var m := [UNRELIABLE, mode] + ScalarBytes(length) + cipher;
    OneByte(mode);
    assert At(m, 1, LeBytes(mode, 1));
    NumberBack(m, 1, mode, 1);
    assert m[2..2 + |ScalarBytes(length)|] == ScalarBytes(length);
    ScalarBack(m, 2, length);
    assert m[2 + |ScalarBytes(length)|..] == cipher;
    Rc4.AppliedTwice(key, content);
  }

  /** Before there is a key, envelopes are dropped. */
  lemma NoKeyNoEnvelope(expected: Serial, m: seq<Byte>)
    requires IsEncrypted(m)
    ensures Entered([], expected, m) == Dropped && NextSerial([], expected, m) == expected
  {
  }

  // --- Streams of messages -----------------------------------------------------------------------

  /** The content accepted from a run of messages, and the serial expected after it. */
  datatype Delivered = Delivered(payloads: seq<seq<Byte>>, serial: Serial)

  function Delivery(key: seq<Byte>, expected: Serial, messages: seq<seq<Byte>>): Delivered
    decreases |messages|
  {
    if messages == [] then Delivered([], expected)
    else
      var rest := Delivery(key, NextSerial(key, expected, messages[0]), messages[1..]);
      var entry := Entered(key, expected, messages[0]);
      if entry.Inner? then rest.(payloads := [entry.payload] + rest.payloads) else rest
  }

  /** A payload and the serial its sender gave it. */
  datatype Item = Item(serial: Serial, payload: Payload)

  /** What should get through: each payload whose serial is the one due. */
  function InTurn(expected: Serial, items: seq<Item>): Delivered
    decreases |items|
  {
    if items == [] then Delivered([], expected)
    else if items[0].serial == expected then
      var rest := InTurn(Successor(expected), items[1..]);
      rest.(payloads := [items[0].payload] + rest.payloads)
    else InTurn(expected, items[1..])
  }

  function SealedAll(key: seq<Byte>, items: seq<Item>): (ms: seq<seq<Byte>>)
    requires key != []
    ensures |ms| == |items|
  {
    seq(|items|, i requires 0 <= i < |items| => Sealed(key, items[i].serial, items[i].payload))
  }

  lemma {:induction false} DeliveredInTurn(key: seq<Byte>, expected: Serial, items: seq<Item>)
    requires key != []
    ensures Delivery(key, expected, SealedAll(key, items)) == InTurn(expected, items)
    decreases |items|
  {
    hide Sealed, Entered, NextSerial;
    if items != [] {
      var ms := SealedAll(key, items);
      assert ms[1..] == SealedAll(key, items[1..]);
      SealedOpens(key, items[0].serial, expected, items[0].payload);
      DeliveredInTurn(key, NextSerial(key, expected, ms[0]), items[1..]);
    }
  }

  /** Payloads numbered by one sender. */
  function Numbered(start: Serial, payloads: seq<Payload>): (items: seq<Item>)
    ensures |items| == |payloads|
  {
    seq(|payloads|, i requires 0 <= i < |payloads| => Item(Advanced(start, i), payloads[i]))
  }

  lemma NumberedTail(start: Serial, payloads: seq<Payload>)
    requires payloads != []
    ensures Numbered(start, payloads)[1..] == Numbered(Successor(start), payloads[1..])
  {
    forall i | 0 <= i < |payloads| - 1
      ensures Numbered(start, payloads)[1..][i] == Numbered(Successor(start), payloads[1..])[i]
    {
      AdvancedStep(start, i);
    }
  }

  lemma {:induction false} NumberedInTurn(start: Serial, payloads: seq<Payload>)
    ensures InTurn(start, Numbered(start, payloads)) == Delivered(payloads, Advanced(start, |payloads|))
    decreases |payloads|
  {
    hide Successor, Advanced;
    AdvancedNone(start);
    if payloads != [] {
      NumberedTail(start, payloads);
      NumberedInTurn(Successor(start), payloads[1..]);
      AdvancedStep(start, |payloads| - 1);
      assert [payloads[0]] + payloads[1..] == payloads;
    }
  }

  // --- The whole path ----------------------------------------------------------------------------

  predicate Sendable(key: seq<Byte>, items: seq<Item>)
    requires key != []
  {
    AllSmall(SealedAll(key, items))
  }

  lemma SealedLimit(key: seq<Byte>, serial: Serial, payload: Payload)
    requires key != []
    ensures |Sealed(key, serial, payload)| <= MAX_PAYLOAD <==> |payload| <= MAX_PAYLOAD - 9
  {
    hide LeBytes, Rc4.Applied;
  }

  /** Sealing costs nine bytes of the frame limit, no more and no less. */
  lemma SendableExactly(key: seq<Byte>, items: seq<Item>)
    requires key != []
    ensures Sendable(key, items) <==> forall i | 0 <= i < |items| :: |items[i].payload| <= MAX_PAYLOAD - 9
  {
    hide Sealed;
    forall i | 0 <= i < |items|
      ensures |SealedAll(key, items)[i]| <= MAX_PAYLOAD <==> |items[i].payload| <= MAX_PAYLOAD - 9
    {
      SealedLimit(key, items[i].serial, items[i].payload);
    }
  }

  /** The messages complete in the first part of a stream are the first of its messages. */
  lemma FirstFrames(ms: seq<seq<Byte>>, a: seq<Byte>, b: seq<Byte>)
    requires AllSmall(ms) && a + b == Frames(ms)
    ensures Drain(a).error == Incomplete && Drain(a).payloads <= ms
    ensures b == [] ==> Drain(a) == Drained(ms, [], Incomplete)
  {
    hide Drain, Frames;
    FramesBack(ms);
    DrainAppend(a, b);
    if b == [] { assert a + b == a; }
  }

  /** Whatever serials the messages carry and however the stream is cut, at every moment what was delivered is
      the in-turn content of the messages that have arrived in full. */
  lemma StreamDelivers(key: seq<Byte>, expected: Serial, items: seq<Item>, chunks: seq<seq<Byte>>, pending: seq<Byte>)
    requires key != [] && Sendable(key, items)
    requires Concat(chunks) + pending == Frames(SealedAll(key, items))
    ensures var r := Receive(chunks);
            && r.error == Incomplete && |r.payloads| <= |items|
            && Delivery(key, expected, r.payloads) == InTurn(expected, items[..|r.payloads|])
            && (pending == [] ==> |r.payloads| == |items| && r.rest == [])
  {
    hide Drain, Frames, Receive, Concat, Delivery, InTurn, Sealed;
    var ms := SealedAll(key, items);
    ChunkingIsIrrelevant(chunks);
    FirstFrames(ms, Concat(chunks), pending);
    var n := |Receive(chunks).payloads|;
    assert Receive(chunks).payloads == ms[..n] == SealedAll(key, items[..n]);
    DeliveredInTurn(key, expected, items[..n]);
  }

  /** What one side sends the other receives: the same payloads in the same order, never more than was sent, all
      of it once the stream has arrived, and the serials agree modulo 2^16. */
  lemma EndToEnd(key: seq<Byte>, start: Serial, payloads: seq<Payload>, chunks: seq<seq<Byte>>, pending: seq<Byte>)
    requires key != [] && Sendable(key, Numbered(start, payloads))
    requires Concat(chunks) + pending == Frames(SealedAll(key, Numbered(start, payloads)))
    ensures var r := Receive(chunks); var d := Delivery(key, start, r.payloads);
            && r.error == Incomplete && d.payloads <= payloads && d.serial == Advanced(start, |d.payloads|)
            && (pending == [] ==> d.payloads == payloads && r.rest == [])
  {
    hide Drain, Frames, Receive, Concat, Delivery, InTurn, Sealed, Advanced;
    StreamDelivers(key, start, Numbered(start, payloads), chunks, pending);
    var n := |Receive(chunks).payloads|;
    assert Numbered(start, payloads)[..n] == Numbered(start, payloads[..n]);
    NumberedInTurn(start, payloads[..n]);
  }
}
