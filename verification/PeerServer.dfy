/**
  The connection object: its fields are updated step by step, each method against the function that says what
  the step amounts to.
 */
module PeerServer {
  import opened Bytes
  import opened Wire
  import opened Framing
  import opened Pipeline
  import opened Rsa
  import opened Phases
  import opened Peers
  import Rc4

  /** A copy of some bytes, encrypted or decrypted in place. */
  method Crypt(key: seq<Byte>, data: seq<Byte>) returns (r: seq<Byte>)
    requires key != []
    ensures r == Rc4.Applied(key, data) && |r| == |data|
  {
    var buffer := new Byte[|data|](i requires 0 <= i < |data| => data[i]);
    assert buffer[..] == data;
    Rc4.Apply(key, buffer);
    r := buffer[..];
  }

  class Connection {
    const cfg: Config
    const parser: FrameParser
    var phase: Phase
    var key: seq<Byte>
    var expected: Serial
    var next: Serial
    var log: seq<Event>

    ghost function Model(): Peer
      reads this
    {
      Peer(phase, key, expected, next, log)
    }

    ghost function Whole(): Link
      reads this, parser
    {
      Link(Model(), parser.buffer)
    }

    constructor (config: Config)
      ensures cfg == config && fresh(parser) && Whole() == Start(config)
    {
      cfg := config;
      parser := new FrameParser();
      phase := AwaitingPublicKey;
      key := [];
      expected := 0;
      next := 0;
      log := [];
      new;
      SendPayload(cfg.hint, false);
    }

    method SendPayload(payload: Payload, encrypt: bool)
      modifies this
      ensures Model() == Send(old(Model()), payload, encrypt)
    {
      hide ScalarBytes, LeBytes, Rc4.Applied;
      if phase == Closed {
        return;
      }
      if encrypt && key != [] {
        PayloadFits(payload);
        var plain := new Writer();
        plain.WriteNumber(next, 2);
        plain.WriteBytes(payload);
        assert plain.data == LeBytes(next, 2) + payload;
        next := Successor(next);
        var cipher := Crypt(key, plain.data);
        var w := new Writer();
        w.WriteBytes([RELIABLE]);
        w.WriteBytes([1]);
        w.WriteScalar(|cipher|);
        w.WriteBytes(cipher);
        assert w.data == Sealed(key, old(next), payload);
        log := log + [Sent(payload, true, w.data)];
      } else {
        log := log + [Sent(payload, false, payload)];
      }
    }

    method Shut(onLeave: seq<Act>)
      modifies this
      ensures Model() == Close(old(Model()), onLeave)
      decreases onLeave, 1
    {
      hide Send;
      if phase == Closed {
        return;
      }
      var wasConnected := phase == Connected;
      phase := Closed;
      if wasConnected {
        log := log + [Left];
        Callback(onLeave);
      }
      log := log + [Released];
    }

    /** The game acts on the connection it was called for. */
    method Callback(acts: seq<Act>)
      modifies this
      ensures Model() == React(old(Model()), acts)
      decreases acts, 0
    {
      hide Send, Close;
      if acts == [] {
        return;
      }
      if acts[0].DoSend? {
        SendPayload(acts[0].payload, acts[0].encrypt);
      } else {
        Shut(acts[0].onLeave);
      }
      Callback(acts[1..]);
    }

    method ReceivePublicKey(message: seq<Byte>, c: Choice)
      requires message != []
      modifies this
      ensures Model() == OnPublicKey(old(Model()), message, c)
    {
      hide ArrayAt, ArrayBytes, ParsedKey, SimpleBlob, Close;
      var r := new Reader(message);
      var kind := r.Take(1);
      var blob := r.ReadByteArray();
      if blob.Err? {
        return;
      }
      var client := ParsePublicKeyBlob(blob.value);
      ParsedKeyBound(blob.value);
      if client.Err? {
        Shut(c.onLeave);
        return;
      }
      key := SessionKey(c);
      ghost var numbers := ParsedKey(blob.value).value;
      var bytes := client.value.bytes;
      var padding := Padding(c, if bytes < SESSION_KEY_BYTES + 3 then 0 else bytes - 3 - SESSION_KEY_BYTES);
      var wrapped := MakeSimpleBlob(client.value, key, padding);
      if wrapped.Err? {
        return;
      }
      WrappedKeyFits(numbers, c);
      var w := new Writer();
      w.WriteBytes([SESSION_KEY]);
      w.WriteByteArray(wrapped.value);
      assert w.data == KeyMessage(numbers, c);
      SendPayload(w.data, false);
      phase := AwaitingConnectionRequest;
    }

    method ReceiveRequest(message: seq<Byte>, c: Choice)
      requires message != []
      modifies this
      ensures Model() == OnConnectionRequest(cfg, old(Model()), message, c)
    {
      hide ArrayAt, Close, React, LeBytes, BytesVal, Send, ScalarBytes;
      var r := new Reader(message);
      var kind := r.Take(1);
      var data := r.ReadByteArray();
      if data.Err? {
        return;
      }
      var version := r.Take(16);
      if version.Err? {
        return;
      }
      var internal := r.ReadNumber(4);
      if internal.Err? {
        return;
      }
      if version.value != cfg.version {
        SendPayload([VERSION_MISMATCH], false);
        Shut(c.onLeave);
        return;
      }
      var w := new Writer();
      w.WriteBytes([CONNECT_SUCCESS]);
      w.WriteNumber(cfg.id, 4);
      w.WriteBytes(cfg.instance);
      w.WriteByteArray([]);
      w.WriteBytes(cfg.address);
      w.WriteNumber(cfg.port, 2);
      assert w.data == Welcome(cfg);
      SendPayload(w.data, false);
      phase := Connected;
      SendPayload(DetectorOff(), false);
      log := log + [Joined];
      Callback(c.onJoin);
    }

    method HandleMessage(message: seq<Byte>, c: Choice)
      modifies this
      ensures Model() == Handle(cfg, old(Model()), message, c)
    {
      hide OnPublicKey, OnConnectionRequest, React;
      if message == [] {
        return;
      }
      if message[0] == PUBLIC_KEY {
        if phase == AwaitingPublicKey {
          ReceivePublicKey(message, c);
        }
      } else if message[0] == CONNECTION_REQUEST {
        if phase == AwaitingConnectionRequest {
          ReceiveRequest(message, c);
        }
      } else {
        var call := CallOf(message);
        if phase == Connected && call.Call? {
          log := log + [call.event];
          Callback(c.onCall);
        }
      }
    }

    /** The envelope is opened; only the serial that is due gets through, and only then does it move. */
    method ReceiveEncrypted(message: seq<Byte>) returns (entry: Entry)
      requires IsEncrypted(message)
      modifies this
      ensures entry == Unsealed(old(key), old(expected), message)
      ensures Model() == old(Model()).(expected := NextSerial(old(key), old(expected), message))
    {
      hide NumberAt, ScalarAt, BytesVal, Rc4.Applied;
      if key == [] {
        return Dropped;
      }
      var r := new Reader(message);
      var kind := r.Take(1);
      var mode := r.ReadNumber(1);
      if mode.Err? {
        return Faulty;
      }
      var length := r.ReadScalar();
      if length.Err? {
        return Faulty;
      }
      var plain := Crypt(key, message[r.offset..]);
      if message[0] == UNRELIABLE {
        return Inner(plain);
      }
      if |plain| < 2 {
        return Faulty;
      }
      if BytesVal(plain[..2]) != expected {
        return Dropped;
      }
      expected := Successor(expected);
      return Inner(plain[2..]);
    }

    method ProcessPayload(message: seq<Byte>, c: Choice)
      modifies this
      ensures Model() == Process(cfg, old(Model()), message, c)
    {
      hide Handle, Unsealed, NextSerial;
      if IsEncrypted(message) {
        var entry := ReceiveEncrypted(message);
        if entry.Inner? {
          HandleMessage(entry.payload, c);
        } else {
          Unmoved(old(key), old(expected), message);
          EnvelopeStays(old(key), old(expected), message);
        }
      } else {
        HandleMessage(message, c);
        EmptyIgnored(old(Model()), c);
      }
    }

    lemma EmptyIgnored(p: Peer, c: Choice)
      ensures Handle(cfg, p, [], c) == p
    {
    }

    lemma Unmoved(key: seq<Byte>, expected: Serial, message: seq<Byte>)
      requires IsEncrypted(message) && !Unsealed(key, expected, message).Inner?
      ensures NextSerial(key, expected, message) == expected
    {
    }

    lemma EnvelopeStays(key: seq<Byte>, expected: Serial, message: seq<Byte>)
      requires IsEncrypted(message)
      ensures !Unsealed(key, expected, message).Plain?
    {
    }

    /** One read: feed the parser, then serve complete frames until it wants more, fails, or the peer closes. */
    method OnRead(data: seq<Byte>, choices: seq<Choice>)
      modifies this, parser
      ensures Whole() == Step(cfg, old(Whole()), Arrival(data, choices))
    {
      hide Process, Close, NextFrame;
      parser.Feed(data);
      ghost var all := Served(cfg, Model(), parser.buffer, choices);
      var left := choices;
      while true
        invariant all == Served(cfg, Model(), parser.buffer, left)
        decreases |parser.buffer|
      {
        NextFrameUsed(parser.buffer);
        var frame := parser.Next();
        var c := First(left);
        if frame.Stop? {
          if frame.error != Incomplete {
            Shut(c.onLeave);
          }
          return;
        }
        ProcessPayload(frame.payload, c);
        left := Others(left);
        if phase == Closed {
          return;
        }
      }
    }
  }
}
