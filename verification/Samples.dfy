/**
  Samples of everything that goes over the wire, byte by byte, so that both ends of a round trip are held to the layouts
  and constants of the protocol.
 */
module Samples {
  import opened Arith
  import opened Bytes
  import opened Limbs
  import opened Utf
  import opened Wire
  import opened Framing
  import opened Pipeline
  import opened Rsa
  import Rc4
  import Rc4Vector
  import Peers
  import Notices

  lemma Powers()
    ensures Pow(256, 0) == 1 && Pow(256, 1) == 256 && Pow(256, 2) == 0x1_0000 && Pow(256, 3) == 0x100_0000
  {
    assert Pow(256, 1) == 256 * Pow(256, 0);
    assert Pow(256, 2) == 256 * Pow(256, 1);
    assert Pow(256, 3) == 256 * Pow(256, 2);
  }

  lemma OneVal(a: Byte)
    ensures BytesVal([a]) == a
  {
    Powers();
    assert [a][..0] == [];
  }

  lemma ValNext(s: seq<Byte>, x: Byte, weight: nat)
    requires Pow(256, |s|) == weight
    ensures BytesVal(s + [x]) == BytesVal(s) + x * weight
  {
    assert (s + [x])[..|s|] == s;
  }

  /** Least significant byte first. */
  lemma TwoBytes(low: Byte, high: Byte)
    ensures LeBytes(low + 0x100 * high, 2) == [low, high]
  {
    hide Pow, LeBytes, BytesVal;
    Powers();
    OneVal(low);
    ValNext([low], high, 0x100);
    assert [low] + [high] == [low, high];
    SpellVal([low, high]);
  }

  lemma FourBytes(a: Byte, b: Byte, c: Byte, d: Byte)
    ensures LeBytes(a + 0x100 * b + 0x1_0000 * c + 0x100_0000 * d, 4) == [a, b, c, d]
  {
    hide Pow, LeBytes, BytesVal;
    Powers();
    OneVal(a);
    ValNext([a], b, 0x100);
    ValNext([a] + [b], c, 0x1_0000);
    ValNext([a] + [b] + [c], d, 0x100_0000);
    assert [a] + [b] + [c] + [d] == [a, b, c, d];
    SpellVal([a, b, c, d]);
  }

  /** Scalars of one, two and four bytes, the smallest magnitudes that need them included. */
  lemma ScalarSamples()
    ensures ScalarBytes(5) == [1, 5] && ScalarBytes(-1) == [1, 0xFF] && ScalarBytes(127) == [1, 127]
    ensures ScalarBytes(128) == [2, 128, 0] && ScalarBytes(-129) == [2, 0x7F, 0xFF]
    ensures ScalarBytes(0x8000) == [4, 0, 0x80, 0, 0]
  {
    hide LeBytes, Pow;
    OneByte(5);
    OneByte(255);
    OneByte(127);
    TwoBytes(128, 0);
    TwoBytes(0x7F, 0xFF);
    FourBytes(0, 0x80, 0, 0);
  }

  /** A frame: the magic number, the length, the payload. */
  lemma FrameSample()
    ensures FrameBytes([0xAA, 0xBB]) == [0x13, 0x57, 1, 2, 0xAA, 0xBB] && MAX_PAYLOAD == 0x10_0000
  {
    hide LeBytes, Pow;
    TwoBytes(0x13, 0x57);
    OneByte(2);
  }

  /** An envelope under the key 01 02 03 04 05, whose key stream is published. */
  lemma EnvelopeSample(key: seq<Byte>)
    requires key == Rc4Vector.KEY
    ensures Sealed(key, 0, [0, 0]) == [36, 1, 1, 4, 0xB2, 0x39, 0x63, 0x05]
  {
    hide LeBytes, Pow, Rc4.Applied;
    TwoBytes(0, 0);
    OneByte(4);
    assert LeBytes(0, 2) + [0, 0] == [0, 0, 0, 0];
    Rc4Vector.PublishedVector(key);
  }

  /** The headers of the two CryptoAPI blobs. */
  lemma BlobSamples(key: KeyNumbers)
    ensures SIMPLE_HEADER == [1, 2, 0, 0, 0x01, 0x68, 0, 0, 0x00, 0xA4, 0, 0]
    ensures |ExportedKey(key)| >= 12
    ensures ExportedKey(key)[..12] == [6, 2, 0, 0, 0x00, 0xA4, 0, 0, 0x52, 0x53, 0x41, 0x31]
  {
    hide LeBytes, Pow;
    FourBytes(0x01, 0x68, 0, 0);
    FourBytes(0x00, 0xA4, 0, 0);
    FourBytes(0x52, 0x53, 0x41, 0x31);
  }

  // --- Text --------------------------------------------------------------------------------------

  /** One character of each length, in both encodings: A, e acute, the euro sign, and U+10348. */
  lemma CharacterSamples()
    ensures ToUtf8([0x41]) == [0x41] && ToUtf16([0x41]) == [0x41]
    ensures ToUtf8([0xE9]) == [0xC3, 0xA9] && ToUtf16([0xC3, 0xA9]) == [0xE9]
    ensures ToUtf8([0x20AC]) == [0xE2, 0x82, 0xAC] && ToUtf16([0xE2, 0x82, 0xAC]) == [0x20AC]
    ensures ToUtf8([0xD800, 0xDF48]) == [0xF0, 0x90, 0x8D, 0x88]
    ensures ToUtf16([0xF0, 0x90, 0x8D, 0x88]) == [0xD800, 0xDF48]
  {
    EncodeSamples();
    var a: seq<Unit> := [0x41];
    var e: seq<Unit> := [0xE9];
    var euro: seq<Unit> := [0x20AC];
    var hwair: seq<Unit> := [0xD800, 0xDF48];
    assert a[1..] == [] && e[1..] == [] && euro[1..] == [] && hwair[2..] == [];
    Utf16RoundTrip(a);
    Utf16RoundTrip(e);
    Utf16RoundTrip(euro);
    Utf16RoundTrip(hwair);
  }

  lemma EncodeSamples()
    ensures Encode(0x41) == [0x41] && Encode(0xE9) == [0xC3, 0xA9] && Encode(0x20AC) == [0xE2, 0x82, 0xAC]
    ensures Encode(0x10348) == [0xF0, 0x90, 0x8D, 0x88]
  {
  }

  /** What is not a character is decoded all the same: a byte out of place, a sequence cut short, one that is longer
      than need be, and one beyond the last code point. */
  lemma LenientSamples()
    ensures ToUtf16([0x80, 0x41]) == [1] && ToUtf16([0xC3]) == [3] && ToUtf16([0xC1, 0x81]) == [0x41]
    ensures ToUtf16([0xF4, 0x90, 0x80, 0x80]) == [0xDC00, 0xDC00]
  {
    LenientOne([0x80, 0x41]);
    var next: seq<Byte> := [0x41];
    assert next[1..] == [] && Tail(next, 0, 3) == 1 && [0x80, 0x41][1..] == next;
    LenientOne([0xC3]);
    LenientOne([0xC1, 0x81]);
    var short: seq<Byte> := [0x81];
    assert Tail(short, 1, 1) == 0x41 && [0xC1, 0x81][1..] == short;
    BeyondSample();
  }

  lemma BeyondSample()
    ensures ToUtf16([0xF4, 0x90, 0x80, 0x80]) == [0xDC00, 0xDC00]
  {
    LenientOne([0xF4, 0x90, 0x80, 0x80]);
    var far: seq<Byte> := [0x90, 0x80, 0x80];
    assert far[1..] == [0x80, 0x80] && [0x80, 0x80][1..] == [0x80];
    assert Tail([0x80, 0x80], 0x110, 2) == 0x11_0000;
    assert Tail(far, 4, 3) == 0x11_0000 && [0xF4, 0x90, 0x80, 0x80][1..] == far;
  }

  lemma LenientOne(s: seq<Byte>)
    requires s != [] && Used(s) == |s|
    ensures CodePoint(s) < 0x20_0000 && ToUtf16(s) == Units(CodePoint(s))
  {
    CodePointBound(s);
    assert s[|s|..] == [];
  }

  /** A text on the wire: its type, the number of units, the units. */
  lemma TextSample()
    ensures WideBytes([0x41, 0x20AC]) == [2, 1, 2, 0x41, 0, 0xAC, 0x20]
  {
    hide LeBytes, Pow;
    OneByte(2);
  }

  // --- Messages ----------------------------------------------------------------------------------

  /** The two notices about a group. */
  lemma NoticeSamples(instance: Peers.Guid)
    ensures Notices.JoinBytes(4, 3, 7, instance) ==
            [1, 0xF6, 0xFB, 4, 0, 0, 0, 3, 0, 0, 0, 1, 0, 7, 0, 0, 0, 1, 0, 0, 0] + instance + [0, 0, 0]
    ensures Notices.LeaveBytes(4, 3) == [1, 0xFA, 0xFB, 3, 0, 0, 0, 4, 0, 0, 0]
  {
    hide LeBytes, Pow;
    TwoBytes(0xF6, 0xFB);
    TwoBytes(0xFA, 0xFB);
    TwoBytes(0, 0);
    FourBytes(4, 0, 0, 0);
    FourBytes(3, 0, 0, 0);
    FourBytes(7, 0, 0, 0);
    FourBytes(1, 0, 0, 0);
    OneByte(0);
  }

  /** The message that carries the session key starts with its type, and the key has sixteen bytes. */
  lemma KeySample(key: KeyNumbers, c: Peers.Choice)
    requires !Peers.TooShort(key) && key.bytes < 0x1000_0000_0000
    ensures |Peers.KeyMessage(key, c)| > 1 && Peers.KeyMessage(key, c)[0] == 6 && |Peers.SessionKey(c)| == 16
  {
    Peers.WrappedKeyFits(key, c);
  }

  /** The answer to an admitted client and the message that follows it. */
  lemma WelcomeSample(cfg: Peers.Config)
    requires cfg.id == 3 && cfg.port == 0x1F90
    ensures Peers.Welcome(cfg) == [10, 3, 0, 0, 0] + cfg.instance + [1, 0] + cfg.address + [0x90, 0x1F]
    ensures Peers.DetectorOff() == [1, 0x00, 0xFC, 0]
  {
    hide LeBytes, Pow;
    FourBytes(3, 0, 0, 0);
    TwoBytes(0x90, 0x1F);
    TwoBytes(0x00, 0xFC);
    OneByte(0);
  }
}
