/**
  The TCP frame splitter: however the byte stream is cut into reads, the same payloads come out.
 */
module Framing {
  import opened Arith
  import opened Bytes
  import opened Wire

  const MAGIC: nat := 0x5713
  const MAX_PAYLOAD: nat := 0x10_0000

  /** `make_frame` */
  function FrameBytes(payload: seq<Byte>): seq<Byte>
    requires InRange(|payload|, 8)
  {
    LeBytes(MAGIC, 2) + ScalarBytes(|payload|) + payload
  }

  datatype FrameError = Incomplete | BadMagic | BadLength

  datatype Outcome = Frame(payload: seq<Byte>, used: nat) | Stop(error: FrameError)

  /** What `next` finds at the front of the buffer. */
  function NextFrame(buf: seq<Byte>): (o: Outcome)
    ensures o.Frame? ==> 3 < o.used <= |buf|
  {
    if |buf| < 3 then Stop(Incomplete)
    else if BytesVal(buf[..2]) != MAGIC then Stop(BadMagic)
    else if !IsWidth(buf[2]) then Stop(BadLength)
    else
      var header := 3 + buf[2];
      if |buf| < header then Stop(Incomplete)
      else
        var length := Signed(BytesVal(buf[3..header]), buf[2]);
        if length < 0 || length > MAX_PAYLOAD then Stop(BadLength)
        else if |buf| < header + length then Stop(Incomplete)
        else Frame(buf[header..header + length], header + length)
  }

  /** Everything a buffer yields: complete payloads, what is left, and why it stopped. */
  datatype Drained = Drained(payloads: seq<seq<Byte>>, rest: seq<Byte>, error: FrameError)

  function Drain(buf: seq<Byte>): Drained
    decreases |buf|
  {
    match NextFrame(buf)
    case Stop(e) => Drained([], buf, e)
    case Frame(p, used) =>
      var d := Drain(buf[used..]);
      d.(payloads := [p] + d.payloads)
  }

  lemma DrainStops(buf: seq<Byte>)
    requires NextFrame(buf).Stop?
    ensures Drain(buf) == Drained([], buf, NextFrame(buf).error)
  {
    hide NextFrame;
  }

  lemma DrainGoesOn(buf: seq<Byte>)
    requires NextFrame(buf).Frame? && NextFrame(buf).used <= |buf|
    ensures var rest := Drain(buf[NextFrame(buf).used..]);
            Drain(buf) == rest.(payloads := [NextFrame(buf).payload] + rest.payloads)
  {
    hide NextFrame;
  }

  // --- More bytes change nothing that was already decided ----------------------------------------

  lemma NextFrameStable(a: seq<Byte>, b: seq<Byte>)
    requires NextFrame(a) != Stop(Incomplete)
    ensures NextFrame(a + b) == NextFrame(a)
  {
    hide BytesVal, Signed, Half;
    SliceStays(a, b, 0, 2);
    if IsWidth(a[2]) {
      var header := 3 + a[2];
      if header <= |a| {
        SliceStays(a, b, 3, header);
        var length := Signed(BytesVal(a[3..header]), a[2]);
        if 0 <= length <= |a| - header { SliceStays(a, b, header, header + length); }
      }
    }
  }

  lemma SliceStays(a: seq<Byte>, b: seq<Byte>, i: nat, j: nat)
    requires i <= j <= |a|
    ensures (a + b)[i..j] == a[i..j]
  {
  }

  lemma {:induction false} DrainAppend(a: seq<Byte>, b: seq<Byte>)
    ensures var d := Drain(a);
            if d.error == Incomplete
            then Drain(a + b) == Drain(d.rest + b).(payloads := d.payloads + Drain(d.rest + b).payloads)
            else Drain(a + b) == d.(rest := d.rest + b)
    decreases |a|
  {
    hide NextFrame;
    match NextFrame(a)
    case Stop(e) =>
      if e != Incomplete { NextFrameStable(a, b); }
    case Frame(p, used) =>
      NextFrameStable(a, b);
      NextFrameUsed(a);
      DrainAppend(a[used..], b);
      assert (a + b)[used..] == a[used..] + b;
  }

  lemma NextFrameUsed(a: seq<Byte>)
    ensures NextFrame(a).Frame? ==> 3 < NextFrame(a).used <= |a|
  {
  }

  // --- Reads -------------------------------------------------------------------------------------

  /** What a connection has seen after some reads; a fatal error ends it. */
  function Receive(chunks: seq<seq<Byte>>): Drained {
    if chunks == [] then Drained([], [], Incomplete)
    else
      var before := Receive(chunks[..|chunks| - 1]);
      if before.error != Incomplete then before
      else
        var d := Drain(before.rest + chunks[|chunks| - 1]);
        d.(payloads := before.payloads + d.payloads)
  }

  function Concat(chunks: seq<seq<Byte>>): seq<Byte> {
    if chunks == [] then [] else Concat(chunks[..|chunks| - 1]) + chunks[|chunks| - 1]
  }

  /** Draining after every read yields the payloads and the verdict of the stream taken at once. */
  lemma {:induction false} ChunkingIsIrrelevant(chunks: seq<seq<Byte>>)
    ensures var r := Receive(chunks); var d := Drain(Concat(chunks));
            && r.payloads == d.payloads && r.error == d.error
            && (r.error == Incomplete ==> r.rest == d.rest)
  {
    if chunks != [] {
      var k := |chunks| - 1;
      ChunkingIsIrrelevant(chunks[..k]);
      DrainAppend(Concat(chunks[..k]), chunks[k]);
    }
  }

  // --- Frames parse back -------------------------------------------------------------------------

  lemma MagicBytes()
    ensures MAGIC < Pow(256, 2)
  {
    assert Pow(256, 1) == 256;
  }

  lemma HeaderBack(payload: seq<Byte>, rest: seq<Byte>)
    requires InRange(|payload|, 8)
    ensures var s := FrameBytes(payload) + rest; var w := Width(|payload|);
            && |s| >= 3 + w + |payload| && BytesVal(s[..2]) == MAGIC && s[2] == w
            && Signed(BytesVal(s[3..3 + w]), w) == |payload|
            && s[3 + w..3 + w + |payload|] == payload && s[3 + w + |payload|..] == rest
  {
    hide LeBytes, BytesVal, Pow;
    var s := FrameBytes(payload) + rest;
    var w := Width(|payload|);
    var length := LeBytes(TwosComplement(|payload|, w), w);
    MagicBytes();
    ValSpellFits(MAGIC, 2);
    Spans(w);
    ValSpellFits(TwosComplement(|payload|, w), w);
    assert s == LeBytes(MAGIC, 2) + [w] + length + payload + rest;
    assert s[..2] == LeBytes(MAGIC, 2);
    assert s[3..3 + w] == length;
  }

  /** A frame is recognised as itself exactly up to the size limit; beyond it the connection is refused. */
  lemma FrameBack(payload: seq<Byte>, rest: seq<Byte>)
    requires InRange(|payload|, 8)
    ensures NextFrame(FrameBytes(payload) + rest) ==
            if |payload| <= MAX_PAYLOAD then Frame(payload, |FrameBytes(payload)|) else Stop(BadLength)
  {
    hide LeBytes, BytesVal, Pow, Signed, Width, Half;
    HeaderBack(payload, rest);
  }

  /** Payloads within the limit. */
  predicate AllSmall(ps: seq<seq<Byte>>) { forall i | 0 <= i < |ps| :: |ps[i]| <= MAX_PAYLOAD }

  function Frames(ps: seq<seq<Byte>>): seq<Byte>
    requires AllSmall(ps)
  {
    if ps == [] then [] else FrameBytes(ps[0]) + Frames(ps[1..])
  }

  lemma {:induction false} FramesBack(ps: seq<seq<Byte>>)
    requires AllSmall(ps)
    ensures Drain(Frames(ps)) == Drained(ps, [], Incomplete)
  {
    hide NextFrame, FrameBytes;
    if ps == [] {
      EmptyWaits();
    } else {
      var rest := Frames(ps[1..]);
      FrameBack(ps[0], rest);
      NextFrameUsed(FrameBytes(ps[0]) + rest);
      FramesBack(ps[1..]);
      assert (FrameBytes(ps[0]) + rest)[|FrameBytes(ps[0])|..] == rest;
      assert [ps[0]] + ps[1..] == ps;
    }
  }

  lemma EmptyWaits()
    ensures NextFrame([]) == Stop(Incomplete)
  {
  }

  // --- What is not a frame -----------------------------------------------------------------------

  /** A wrong magic number, a length prefix that is no width, and a negative length are fatal, each as soon as seen. */
  lemma BadFrames(buf: seq<Byte>)
    requires |buf| >= 3
    ensures buf[0] != 0x13 || buf[1] != 0x57 ==> NextFrame(buf) == Stop(BadMagic)
    ensures buf[0] == 0x13 && buf[1] == 0x57 && !IsWidth(buf[2]) ==> NextFrame(buf) == Stop(BadLength)
    ensures buf[0] == 0x13 && buf[1] == 0x57 && buf[2] == 1 && |buf| >= 4 && buf[3] >= 128 ==>
              NextFrame(buf) == Stop(BadLength)
  {
    TwoByteVal(buf[..2]);
    if |buf| >= 4 { OneByteVal(buf[3..4]); }
  }

  lemma OneByteVal(b: seq<Byte>)
    requires |b| == 1
    ensures BytesVal(b) == b[0]
  {
    assert Pow(256, 0) == 1 && b[..0] == [];
  }

  lemma TwoByteVal(b: seq<Byte>)
    requires |b| == 2
    ensures var high: nat := b[1]; BytesVal(b) == b[0] + 256 * high
  {
    OneByteVal(b[..1]);
    assert Pow(256, 1) == 256;
  }

  /** Anything short of a whole frame is waited for. */
  lemma PartWaits(payload: seq<Byte>, k: nat)
    requires |payload| <= MAX_PAYLOAD && k < |FrameBytes(payload)|
    ensures NextFrame(FrameBytes(payload)[..k]) == Stop(Incomplete)
  {
    hide NextFrame;
    var part, rest := FrameBytes(payload)[..k], FrameBytes(payload)[k..];
    assert part + rest == FrameBytes(payload) == FrameBytes(payload) + [];
    FrameBack(payload, []);
    NextFrameUsed(part);
    if NextFrame(part) != Stop(Incomplete) { NextFrameStable(part, rest); }
  }

  // --- The objects -------------------------------------------------------------------------------

  method MakeFrame(payload: seq<Byte>) returns (frame: seq<Byte>)
    requires InRange(|payload|, 8)
    ensures frame == FrameBytes(payload)
  {
    hide ScalarBytes, LeBytes;
    var w := new Writer();
    w.WriteNumber(MAGIC, 2);
    w.WriteScalar(|payload|);
    w.WriteBytes(payload);
    frame := w.data;
  }

  class FrameParser {
    var buffer: seq<Byte>

    constructor ()
      ensures buffer == []
    {
      buffer := [];
    }

    method Feed(data: seq<Byte>)
      modifies this
      ensures buffer == old(buffer) + data
    {
      buffer := buffer + data;
    }

    /** The next payload leaves the buffer; nothing else does. */
    method Next() returns (o: Outcome)
      modifies this
      ensures o == NextFrame(old(buffer))
      ensures buffer == if o.Frame? then old(buffer)[o.used..] else old(buffer)
    {
      hide BytesVal, Signed, Half;
      if |buffer| < 3 {
        return Stop(Incomplete);
      }
      if BytesVal(buffer[..2]) != MAGIC {
        return Stop(BadMagic);
      }
      var width := buffer[2];
      if !IsWidth(width) {
        return Stop(BadLength);
      }
      var header := 3 + width;
      if |buffer| < header {
        return Stop(Incomplete);
      }
      var r := new Reader(buffer[2..header]);
      var scalar := r.ReadScalar();
      HeaderScalar(buffer);
      var length := scalar.value;
      if length < 0 || length > MAX_PAYLOAD {
        return Stop(BadLength);
      }
      var total := header + length;
      if |buffer| < total {
        return Stop(Incomplete);
      }
      o := Frame(buffer[header..total], total);
      buffer := buffer[total..];
    }

    lemma HeaderScalar(buf: seq<Byte>)
      requires |buf| >= 3 && IsWidth(buf[2]) && |buf| >= 3 + buf[2]
      ensures ScalarAt(buf[2..3 + buf[2]], 0).result == Ok(Signed(BytesVal(buf[3..3 + buf[2]]), buf[2]))
    {
      hide BytesVal, LeBytes, Pow;
      var d := buf[2..3 + buf[2]];
      OneByte(d[0]);
      assert At(d, 0, LeBytes(d[0], 1));
      NumberBack(d, 0, d[0], 1);
      assert d[1..1 + d[0]] == buf[3..3 + buf[2]];
    }

    /** One read of the connection loop: feed, then drain until the parser wants more or fails. */
    method Serve(data: seq<Byte>) returns (payloads: seq<seq<Byte>>, error: FrameError)
      modifies this
      ensures var d := Drain(old(buffer) + data); payloads == d.payloads && buffer == d.rest && error == d.error
    {
      hide NextFrame, Drain;
      Feed(data);
      payloads := [];
      ghost var all := Drain(buffer);
      while true
        invariant all == Drain(buffer).(payloads := payloads + Drain(buffer).payloads)
        decreases |buffer|
      {
        NextFrameUsed(buffer);
        if NextFrame(buffer).Stop? { DrainStops(buffer); } else { DrainGoesOn(buffer); }
        var o := Next();
        if o.Stop? {
          return payloads, o.error;
        }
        payloads := payloads + [o.payload];
      }
    }
  }
}
