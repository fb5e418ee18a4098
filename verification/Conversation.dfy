/**
  A client and the server, from the key exchange to the calls the game sees.
 */
module Conversation {
  import opened Arith
  import opened Bytes
  import opened Wire
  import opened Framing
  import opened Pipeline
  import opened Rsa
  import opened Limbs
  import opened Phases
  import opened Peers
  import PeerLife

  // --- Callbacks ---------------------------------------------------------------------------------

  /** The calls in a log. */
  function Calls(log: seq<Event>): seq<Event> {
    if log == [] then []
    else Calls(log[..|log| - 1]) + if IsCall(log[|log| - 1]) then [log[|log| - 1]] else []
  }

  lemma CallsOne(log: seq<Event>, e: Event)
    ensures Calls(log + [e]) == Calls(log) + if IsCall(e) then [e] else []
  {
    assert (log + [e])[..|log|] == log;
  }

  /** All that sends and closes can do: add to the log, but no call, and perhaps end the connection. */
  predicate Quiet(p: Peer, q: Peer) {
    && q.key == p.key && q.expected == p.expected && p.log <= q.log && Calls(q.log) == Calls(p.log)
    && (q.phase == p.phase || q.phase == Closed)
  }

  lemma SendQuiet(p: Peer, payload: Payload, encrypt: bool)
    ensures Quiet(p, Send(p, payload, encrypt)) && Send(p, payload, encrypt).phase == p.phase
  {
    hide Sealed, Calls;
    var q := Send(p, payload, encrypt);
    if p.phase != Closed { CallsOne(p.log, q.log[|p.log|]); }
  }

  lemma CloseQuiet(p: Peer, onLeave: seq<Act>)
    ensures Quiet(p, Close(p, onLeave)) && Close(p, onLeave).phase == Closed
  {
    hide Close, Calls;
    PeerLife.CloseIs(p, onLeave);
    CallsOne(p.log, Left);
    CallsOne(p.log + [Left], Released);
    CallsOne(p.log, Released);
    assert p.log + [Left, Released] == p.log + [Left] + [Released];
  }

  lemma {:induction false} ReactQuiet(p: Peer, acts: seq<Act>)
    ensures Quiet(p, React(p, acts))
    decreases |acts|
  {
    hide Send, Close, Calls;
    if acts != [] {
      if acts[0].DoSend? {
        SendQuiet(p, acts[0].payload, acts[0].encrypt);
      } else {
        CloseQuiet(p, acts[0].onLeave);
      }
      ReactQuiet(Do(p, acts[0]), acts[1..]);
    }
  }

  // --- The handshake -----------------------------------------------------------------------------

  /** A key a client can have: exportable, long enough to wrap a session key, its top byte in use. */
  ghost predicate ClientKey(key: KeyNumbers, d: nat) {
    && SESSION_KEY_BYTES + 11 <= key.bytes && 8 * key.bytes < BASE && key.exponent < BASE
    && Pow(256, key.bytes - 1) <= key.modulus < Pow(256, key.bytes)
    && KeyPair(key.modulus, key.exponent, d)
  }

  function KeyAnnouncement(key: KeyNumbers): seq<Byte>
    requires key.bytes < BASE
  {
    [PUBLIC_KEY] + ArrayBytes(ExportedKey(key))
  }

  /** What the client does with the answer. */
  function AcceptedKey(answer: seq<Byte>, key: KeyNumbers, d: nat): Result<seq<Byte>> {
    if answer == [] || answer[0] != SESSION_KEY then Err("not an answer")
    else
      var blob := ArrayAt(answer, 1).result;
      if blob.Err? then blob else OpenBlob(blob.value, key.modulus, d, key.bytes)
  }

  lemma ArrayAfter(kind: Byte, b: seq<Byte>)
    requires InRange(|b|, 8)
    ensures ArrayAt([kind] + ArrayBytes(b), 1).result == Ok(b)
  {
    hide ArrayAt, ArrayBytes;
    var m := [kind] + ArrayBytes(b);
    assert m[1..1 + |ArrayBytes(b)|] == ArrayBytes(b);
    ArrayBack(m, 1, b);
  }

  lemma Announced(key: KeyNumbers, d: nat)
    requires ClientKey(key, d)
    ensures ArrayAt(KeyAnnouncement(key), 1).result == Ok(ExportedKey(key)) && ParsedKey(ExportedKey(key)) == Ok(key)
  {
    hide ArrayAt, ArrayBytes, ParsedKey, Pow, KeyPair, LeBytes;
    ArrayAfter(PUBLIC_KEY, ExportedKey(key));
    ParsesExported(key, []);
    assert ExportedKey(key) + [] == ExportedKey(key);
  }

  lemma AnswerOpens(key: KeyNumbers, d: nat, c: Choice)
    requires ClientKey(key, d)
    ensures AcceptedKey(KeyMessage(key, c), key, d) == Ok(SessionKey(c))
  {
    hide ArrayAt, ArrayBytes, OpenBlob, SimpleBlob, KeyPair, Pow;
    WrappedKeyFits(key, c);
    ArrayAfter(SESSION_KEY, WrappedKey(key, c));
    SessionKeyArrives(key.modulus, key.exponent, d, key.bytes, SessionKey(c),
      Padding(c, key.bytes - 3 - SESSION_KEY_BYTES));
  }

  /** A client that announces its key gets an answer only it needs to open, and then both sides hold the same
      session key, whatever the random draws. */
  lemma HandshakeAgrees(cfg: Config, p: Peer, key: KeyNumbers, d: nat, c: Choice)
    requires p.phase == AwaitingPublicKey && ClientKey(key, d)
    ensures var q := Process(cfg, p, KeyAnnouncement(key), c);
            && q.phase == AwaitingConnectionRequest && |q.log| == |p.log| + 1 && q.log[|p.log|].Sent? && p.log <= q.log
            && AcceptedKey(q.log[|p.log|].message, key, d) == Ok(q.key)
  {
    hide KeyPair, Pow, ParsedKey, ExportedKey, ArrayAt, ArrayBytes, AcceptedKey, KeyMessage, WrappedKey;
    Announced(key, d);
    AnswerOpens(key, d, c);
    var m := KeyAnnouncement(key);
    assert Entered(p.key, p.expected, m) == Plain(m);
  }

  /** A connection request the client can send. */
  function RequestMessage(data: Payload, version: Guid, internal: nat): seq<Byte> {
    [CONNECTION_REQUEST] + ArrayBytes(data) + version + LeBytes(internal, 4)
  }

  lemma RequestRead(data: Payload, version: Guid, internal: nat, rest: seq<Byte>)
    ensures RequestVersion(RequestMessage(data, version, internal) + rest) == Ok(version)
  {
    hide ArrayBytes, ArrayAt, LeBytes, BytesVal;
    var m := RequestMessage(data, version, internal) + rest;
    var n := 1 + |ArrayBytes(data)|;
    assert m[1..n] == ArrayBytes(data);
    ArrayBack(m, 1, data);
    assert m[n..n + 16] == version;
  }

  /** What an admitted client reads from the answer: its own host id, the server instance, no reply data, and the
      address it was seen from. */
  lemma WelcomeRead(cfg: Config)
    requires cfg.id < Pow(256, 4) && cfg.port < Pow(256, 2)
    ensures var w := Welcome(cfg);
            && |w| == 29 && w[0] == CONNECT_SUCCESS
            && NumberAt(w, 1, 4) == Read(Ok(cfg.id), 5) && TakeAt(w, 5, 16) == Read(Ok(cfg.instance), 21)
            && ArrayAt(w, 21) == Read(Ok([]), 23) && TakeAt(w, 23, 4) == Read(Ok(cfg.address), 27)
            && NumberAt(w, 27, 2) == Read(Ok(cfg.port), 29)
  {
    hide LeBytes, BytesVal, Pow, NumberAt, ArrayAt, ScalarBytes;
    var w := Welcome(cfg);
    assert |ArrayBytes([])| == 2 by { assert Width(0) == 1; ScalarLength(0); }
    assert w[1..5] == LeBytes(cfg.id, 4) && w[5..21] == cfg.instance && w[21..23] == ArrayBytes([]);
    assert w[23..27] == cfg.address && w[27..29] == LeBytes(cfg.port, 2);
    NumberBack(w, 1, cfg.id, 4);
    ArrayBack(w, 21, []);
    NumberBack(w, 27, cfg.port, 2);
  }

  lemma ScalarLength(v: int)
    requires InRange(v, 8)
    ensures |ScalarBytes(v)| == 1 + Width(v)
  {
  }

  predicate JoinedIn(log: seq<Event>) { exists i | 0 <= i < |log| :: log[i] == Joined }

  /** A well-formed request is admitted exactly when it names the server's protocol version. */
  lemma AdmittedExactly(cfg: Config, p: Peer, data: Payload, version: Guid, internal: nat, c: Choice)
    requires p.phase == AwaitingConnectionRequest && !JoinedIn(p.log)
    ensures var q := Process(cfg, p, RequestMessage(data, version, internal), c);
            (JoinedIn(q.log) <==> version == cfg.version) && (version != cfg.version ==> q.phase == Closed)
  {
    hide ArrayBytes, RequestVersion, LeBytes, React, Welcome, DetectorOff;
    var m := RequestMessage(data, version, internal);
    RequestRead(data, version, internal, []);
    assert m + [] == m;
    assert Entered(p.key, p.expected, m) == Plain(m);
    var q := Process(cfg, p, m, c);
    if version == cfg.version {
      var r := Logged(Send(Send(p, Welcome(cfg), false).(phase := Connected), DetectorOff(), false), Joined);
      assert r.log[|r.log| - 1] == Joined;
      ReactQuiet(r, c.onJoin);
      assert q.log[|r.log| - 1] == Joined;
    } else {
      forall i | 0 <= i < |q.log| ensures q.log[i] != Joined {
        assert i < |p.log| ==> q.log[i] == p.log[i];
      }
    }
  }

  // --- Listening ---------------------------------------------------------------------------------

  function CallIn(message: seq<Byte>): seq<Event> {
    if CallOf(message).Call? then [CallOf(message).event] else []
  }

  function CallsIn(messages: seq<seq<Byte>>): seq<Event> {
    if messages == [] then [] else CallIn(messages[0]) + CallsIn(messages[1..])
  }

  /** The calls some messages lead to, and the serial expected after them. */
  datatype Hearing = Hearing(calls: seq<Event>, serial: Serial)

  function HeardIn(entry: Entry): seq<Event> {
    match entry case Plain(m) => CallIn(m) case Inner(m) => CallIn(m) case _ => []
  }

  function Hear(key: seq<Byte>, expected: Serial, messages: seq<seq<Byte>>): Hearing
    decreases |messages|
  {
    if messages == [] then Hearing([], expected)
    else
      var rest := Hear(key, NextSerial(key, expected, messages[0]), messages[1..]);
      rest.(calls := HeardIn(Entered(key, expected, messages[0])) + rest.calls)
  }

  lemma {:induction false} HearAppend(key: seq<Byte>, expected: Serial, a: seq<seq<Byte>>, b: seq<seq<Byte>>)
    ensures var h := Hear(key, expected, a); var g := Hear(key, h.serial, b);
            Hear(key, expected, a + b) == Hearing(h.calls + g.calls, g.serial)
    decreases |a|
  {
    hide NextSerial, Entered;
    if a == [] {
      assert a + b == b;
    } else {
      assert (a + b)[1..] == a[1..] + b;
      HearAppend(key, NextSerial(key, expected, a[0]), a[1..], b);
    }
  }

  /** Of sealed messages exactly the payloads whose turn it is are heard. */
  lemma {:induction false} HearSealed(key: seq<Byte>, expected: Serial, items: seq<Item>)
    requires key != []
    ensures Hear(key, expected, SealedAll(key, items)) ==
            Hearing(CallsIn(InTurn(expected, items).payloads), InTurn(expected, items).serial)
    decreases |items|
  {
    hide Sealed, Entered, NextSerial, CallIn;
    if items != [] {
      var ms := SealedAll(key, items);
      assert ms[1..] == SealedAll(key, items[1..]);
      SealedOpens(key, items[0].serial, expected, items[0].payload);
      HearSealed(key, NextSerial(key, expected, ms[0]), items[1..]);
      if items[0].serial == expected {
        assert InTurn(expected, items).payloads[1..] == InTurn(Successor(expected), items[1..]).payloads;
      }
    }
  }

  /** `q` is still connected, having made exactly these calls. */
  predicate Heard(p: Peer, q: Peer, h: Hearing) {
    && q.phase == Connected && q.key == p.key && q.expected == h.serial
    && p.log <= q.log && Calls(q.log) == Calls(p.log) + h.calls
  }

  /** `q` was closed on the way, having made the first of these calls. */
  predicate CutOff(p: Peer, q: Peer, h: Hearing) {
    && q.phase == Closed && q.key == p.key && p.log <= q.log
    && Calls(p.log) <= Calls(q.log) <= Calls(p.log) + h.calls
  }

  predicate HeardOrCutOff(p: Peer, q: Peer, h: Hearing) { Heard(p, q, h) || CutOff(p, q, h) }

  lemma DispatchHeard(p: Peer, message: seq<Byte>, c: Choice)
    requires p.phase == Connected
    ensures HeardOrCutOff(p, Dispatch(p, message, c), Hearing(CallIn(message), p.expected))
  {
    hide React, Calls, CallOf;
    if CallOf(message).Call? {
      var e := CallOf(message).event;
      CallsOne(p.log, e);
      PeerLife.CallIsCall(message);
      ReactQuiet(Logged(p, e), c.onCall);
    }
  }

  lemma HandleIsDispatch(cfg: Config, p: Peer, message: seq<Byte>, c: Choice)
    requires p.phase == Connected
    ensures Handle(cfg, p, message, c) == Dispatch(p, message, c)
  {
    hide React;
  }

  lemma ProcessHeard(cfg: Config, p: Peer, message: seq<Byte>, c: Choice)
    requires p.phase == Connected
    ensures HeardOrCutOff(p, Process(cfg, p, message, c),
              Hearing(HeardIn(Entered(p.key, p.expected, message)), NextSerial(p.key, p.expected, message)))
  {
    hide Handle, Dispatch, CallIn, Calls, Unsealed;
    var entry := Entered(p.key, p.expected, message);
    if entry.Plain? {
      HandleIsDispatch(cfg, p, entry.message, c);
      DispatchHeard(p, entry.message, c);
    } else if entry.Inner? {
      var q := p.(expected := NextSerial(p.key, p.expected, message));
      HandleIsDispatch(cfg, q, entry.payload, c);
      DispatchHeard(q, entry.payload, c);
    }
  }

  /** Hearing some more. */
  lemma HeardThen(p: Peer, q: Peer, r: Peer, h: Hearing, g: Hearing)
    requires Heard(p, q, h) && HeardOrCutOff(q, r, g)
    ensures HeardOrCutOff(p, r, Hearing(h.calls + g.calls, g.serial))
  {
    hide Calls;
  }

  lemma CutShort(p: Peer, q: Peer, h: Hearing, g: Hearing)
    requires CutOff(p, q, h) && h.calls <= g.calls
    ensures CutOff(p, q, g)
  {
    hide Calls;
  }

  lemma {:induction false} ServedHeard(cfg: Config, p: Peer, buffer: seq<Byte>, choices: seq<Choice>)
    requires p.phase == Connected && Drain(buffer).error == Incomplete
    ensures var r := Served(cfg, p, buffer, choices);
            && HeardOrCutOff(p, r.peer, Hear(p.key, p.expected, Drain(buffer).payloads))
            && (r.peer.phase != Closed ==> r.buffer == Drain(buffer).rest)
    decreases |buffer|
  {
    hide Process, NextFrame, Entered, NextSerial, HeardIn, Heard, CutOff;
    NextFrameUsed(buffer);
    if NextFrame(buffer).Frame? {
      var m, used := NextFrame(buffer).payload, NextFrame(buffer).used;
      var q := Process(cfg, p, m, First(choices));
      var first := Hearing(HeardIn(Entered(p.key, p.expected, m)), NextSerial(p.key, p.expected, m));
      ProcessHeard(cfg, p, m, First(choices));
      HeardPhase(p, q, first);
      assert Drain(buffer).payloads[1..] == Drain(buffer[used..]).payloads;
      if q.phase == Closed {
        CutShort(p, q, first, Hear(p.key, p.expected, Drain(buffer).payloads));
      } else {
        ServedHeard(cfg, q, buffer[used..], Others(choices));
        HeardThen(p, q, Served(cfg, q, buffer[used..], Others(choices)).peer, first,
          Hear(q.key, q.expected, Drain(buffer[used..]).payloads));
      }
    } else {
      NothingHeard(p);
    }
  }

  lemma HeardPhase(p: Peer, q: Peer, h: Hearing)
    requires HeardOrCutOff(p, q, h)
    ensures if q.phase == Closed then CutOff(p, q, h)
            else Heard(p, q, h) && q.phase == Connected && q.key == p.key && q.expected == h.serial
  {
  }

  lemma NothingHeard(p: Peer)
    ensures Hear(p.key, p.expected, []) == Hearing([], p.expected)
    ensures p.phase == Connected ==> Heard(p, p, Hearing([], p.expected))
  {
  }

  lemma QuietHeard(p: Peer, q: Peer, r: Peer, h: Hearing)
    requires Heard(p, q, h) && Quiet(q, r)
    ensures HeardOrCutOff(p, r, h)
  {
    hide Calls;
  }

  // --- Whole conversations -----------------------------------------------------------------------

  /** The reads among the inputs. */
  function Reads(inputs: seq<Input>): seq<seq<Byte>> {
    if inputs == [] then []
    else Reads(inputs[..|inputs| - 1]) + if inputs[|inputs| - 1].Arrival? then [inputs[|inputs| - 1].data] else []
  }

  /** What has arrived by then. */
  function Arrived(inputs: seq<Input>): Drained { Receive(Reads(inputs)) }

  lemma ArrivedStep(inputs: seq<Input>)
    requires inputs != [] && Arrived(inputs).error == Incomplete
    ensures var k := |inputs| - 1; var before := Arrived(inputs[..k]);
            && before.error == Incomplete
            && if inputs[k].Arrival?
               then var d := Drain(before.rest + inputs[k].data);
                    d.error == Incomplete && Arrived(inputs) == d.(payloads := before.payloads + d.payloads)
               else Arrived(inputs) == before
  {
    hide Drain, Receive;
    var k := |inputs| - 1;
    if inputs[k].Arrival? {
      ReceiveNext(Reads(inputs[..k]), inputs[k].data);
    } else {
      assert Reads(inputs) == Reads(inputs[..k]);
    }
  }

  lemma ReceiveNext(chunks: seq<seq<Byte>>, data: seq<Byte>)
    ensures var before := Receive(chunks); var d := Drain(before.rest + data);
            Receive(chunks + [data]) ==
            if before.error != Incomplete then before else d.(payloads := before.payloads + d.payloads)
  {
    hide Drain;
    assert (chunks + [data])[..|chunks|] == chunks;
  }

  /** Nothing more happens on a closed connection. */
  lemma ClosedStep(cfg: Config, l: Link, input: Input)
    requires l.peer.phase == Closed
    ensures var q := Step(cfg, l, input).peer; q.phase == Closed && q.log == l.peer.log && q.key == l.peer.key
  {
    hide Entered, NextSerial, NextFrame;
    match input
    case Arrival(data, choices) =>
      NextFrameUsed(l.buffer + data);
    case Failure(onLeave) =>
    case Elsewhere(acts) => PeerLife.ClosedInert(l.peer, acts);
  }

  lemma StepHeard(cfg: Config, l: Link, input: Input, p: Peer, h: Hearing)
    requires Heard(p, l.peer, h) && !input.Arrival?
    ensures HeardOrCutOff(p, Step(cfg, l, input).peer, h)
    ensures Step(cfg, l, input).buffer == l.buffer
  {
    hide React, Close, Heard, CutOff;
    match input
    case Failure(onLeave) =>
      CloseQuiet(l.peer, onLeave);
      QuietHeard(p, l.peer, Close(l.peer, onLeave), h);
    case Elsewhere(acts) =>
      ReactQuiet(l.peer, acts);
      QuietHeard(p, l.peer, React(l.peer, acts), h);
  }

  lemma {:induction false} RunHeard(cfg: Config, l: Link, inputs: seq<Input>)
    requires l.peer.phase == Connected && l.buffer == [] && Arrived(inputs).error == Incomplete
    ensures var r := Run(cfg, l, inputs);
            && HeardOrCutOff(l.peer, r.peer, Hear(l.peer.key, l.peer.expected, Arrived(inputs).payloads))
            && (r.peer.phase != Closed ==> r.buffer == Arrived(inputs).rest)
  {
    hide Step, Hear, Heard, CutOff, Arrived;
    if inputs == [] {
      NoneArrived();
      NothingHeard(l.peer);
    } else {
      var k := |inputs| - 1;
      ArrivedStep(inputs);
      RunHeard(cfg, l, inputs[..k]);
      RunHeardStep(cfg, l.peer, Run(cfg, l, inputs[..k]), inputs[k], Arrived(inputs[..k]));
    }
  }

  lemma NoneArrived()
    ensures Arrived([]) == Drained([], [], Incomplete)
  {
  }

  lemma RunHeardStep(cfg: Config, p: Peer, l: Link, input: Input, before: Drained)
    requires HeardOrCutOff(p, l.peer, Hear(p.key, p.expected, before.payloads))
    requires l.peer.phase != Closed ==> l.buffer == before.rest
    requires input.Arrival? ==> Drain(before.rest + input.data).error == Incomplete
    ensures var r := Step(cfg, l, input);
            if input.Arrival?
            then var d := Drain(before.rest + input.data);
                 && HeardOrCutOff(p, r.peer, Hear(p.key, p.expected, before.payloads + d.payloads))
                 && (r.peer.phase != Closed ==> r.buffer == d.rest)
            else HeardOrCutOff(p, r.peer, Hear(p.key, p.expected, before.payloads))
                 && (r.peer.phase != Closed ==> r.buffer == before.rest)
  {
    hide Drain, Hear, Heard, CutOff, Served, React, Close;
    var h := Hear(p.key, p.expected, before.payloads);
    HeardPhase(p, l.peer, h);
    if l.peer.phase == Closed {
      ClosedStep(cfg, l, input);
      CutOffStays(p, l.peer, Step(cfg, l, input).peer, h);
      if input.Arrival? {
        HearAppend(p.key, p.expected, before.payloads, Drain(before.rest + input.data).payloads);
        CutShort(p, Step(cfg, l, input).peer, h,
          Hear(p.key, p.expected, before.payloads + Drain(before.rest + input.data).payloads));
      }
    } else if input.Arrival? {
      var d := Drain(before.rest + input.data);
      ServedHeard(cfg, l.peer, l.buffer + input.data, input.choices);
      HearAppend(p.key, p.expected, before.payloads, d.payloads);
      HeardThen(p, l.peer, Step(cfg, l, input).peer, h, Hear(p.key, h.serial, d.payloads));
    } else {
      StepHeard(cfg, l, input, p, h);
    }
  }

  lemma CutOffStays(p: Peer, q: Peer, r: Peer, h: Hearing)
    requires CutOff(p, q, h) && r.phase == Closed && r.log == q.log && r.key == q.key
    ensures CutOff(p, r, h)
  {
  }

  lemma {:induction false} CallsInPrefix(ms: seq<seq<Byte>>, n: nat)
    requires n <= |ms|
    ensures CallsIn(ms[..n]) <= CallsIn(ms)
  {
    hide CallIn;
    if n > 0 {
      assert ms[..n][1..] == ms[1..][..n - 1];
      CallsInPrefix(ms[1..], n - 1);
    }
  }

  /** Everything the client says is heard: however its encrypted payloads are cut into reads, whatever the callbacks
      do and the server sends meanwhile, the game and the core see exactly the calls in the payloads that have
      arrived, in order, as long as the connection is open; and if it is closed on the way, a prefix of them. */
  lemma EverythingIsHeard(cfg: Config, l: Link, inputs: seq<Input>, payloads: seq<Payload>, pending: seq<Byte>)
    requires l.peer.phase == Connected && l.peer.key != [] && l.buffer == []
    requires Sendable(l.peer.key, Numbered(l.peer.expected, payloads))
    requires Concat(Reads(inputs)) + pending == Frames(SealedAll(l.peer.key, Numbered(l.peer.expected, payloads)))
    ensures var q := Run(cfg, l, inputs).peer; var n := |Arrived(inputs).payloads|;
            && n <= |payloads| && (pending == [] ==> n == |payloads|)
            && HeardOrCutOff(l.peer, q, Hearing(CallsIn(payloads[..n]), Advanced(l.peer.expected, n)))
            && Calls(q.log) <= Calls(l.peer.log) + CallsIn(payloads)
  {
    hide Run, Drain, Frames, Receive, Concat, Hear, InTurn, Sealed, Advanced, Calls, CallsIn, Delivery, Reads;
    var key, start := l.peer.key, l.peer.expected;
    var items := Numbered(start, payloads);
    var got := Arrived(inputs).payloads;
    ChunkingIsIrrelevant(Reads(inputs));
    FirstFrames(SealedAll(key, items), Concat(Reads(inputs)), pending);
    RunHeard(cfg, l, inputs);
    var n := |got|;
    assert got == SealedAll(key, items)[..n] == SealedAll(key, items[..n]);
    HearSealed(key, start, items[..n]);
    assert items[..n] == Numbered(start, payloads[..n]);
    NumberedInTurn(start, payloads[..n]);
    CallsInPrefix(payloads, n);
  }

  // --- From the first byte -----------------------------------------------------------------------

  /** Somewhere in the log is the answer from which the client reads the key the connection uses. */
  predicate Answered(p: Peer, key: KeyNumbers, d: nat) {
    exists i | 0 <= i < |p.log| :: p.log[i].Sent? && AcceptedKey(p.log[i].message, key, d) == Ok(p.key)
  }

  lemma AnsweredStays(p: Peer, q: Peer, key: KeyNumbers, d: nat)
    requires Answered(p, key, d) && p.log <= q.log && q.key == p.key
    ensures Answered(q, key, d)
  {
    hide AcceptedKey;
    var i :| 0 <= i < |p.log| && p.log[i].Sent? && AcceptedKey(p.log[i].message, key, d) == Ok(p.key);
    assert q.log[i] == p.log[i];
  }

  /** The calls in all but the first two messages. */
  function CallsAfterTwo(key: seq<Byte>, ms: seq<seq<Byte>>): Hearing {
    if |ms| <= 2 then Hearing([], 0) else Hear(key, 0, ms[2..])
  }

  /** How far an open connection is after the messages `ms`: nothing, the key, the request, and then calls. */
  predicate Reached(p: Peer, key: KeyNumbers, d: nat, ms: seq<seq<Byte>>) {
    && p.phase == (if |ms| == 0 then AwaitingPublicKey else if |ms| == 1 then AwaitingConnectionRequest else Connected)
    && (|ms| > 0 ==> |p.key| == SESSION_KEY_BYTES && Answered(p, key, d))
    && Hearing(Calls(p.log), p.expected) == CallsAfterTwo(p.key, ms)
  }

  /** What is left of that if it was closed on the way. */
  predicate Ended(p: Peer, ms: seq<seq<Byte>>) {
    p.phase == Closed && Calls(p.log) <= CallsAfterTwo(p.key, ms).calls && (p.key == [] ==> Calls(p.log) == [])
  }

  predicate ReachedOrEnded(p: Peer, key: KeyNumbers, d: nat, ms: seq<seq<Byte>>) {
    Reached(p, key, d, ms) || Ended(p, ms)
  }

  /** What the client has to say begins with its key and its request. */
  predicate Scripted(cfg: Config, key: KeyNumbers, data: Payload, internal: nat, ms: seq<seq<Byte>>)
    requires key.bytes < BASE
  {
    && (|ms| > 0 ==> ms[0] == KeyAnnouncement(key))
    && (|ms| > 1 ==> ms[1] == RequestMessage(data, cfg.version, internal))
  }

  lemma Announces(cfg: Config, p: Peer, key: KeyNumbers, d: nat, c: Choice)
    requires p.phase == AwaitingPublicKey && ClientKey(key, d) && Calls(p.log) == [] && p.expected == 0
    ensures Reached(Process(cfg, p, KeyAnnouncement(key), c), key, d, [KeyAnnouncement(key)])
  {
    hide KeyPair, Pow, ParsedKey, ExportedKey, ArrayAt, ArrayBytes, KeyMessage, WrappedKey, Calls, AcceptedKey;
    Announced(key, d);
    HandshakeAgrees(cfg, p, key, d, c);
    var m := KeyAnnouncement(key);
    assert Entered(p.key, p.expected, m) == Plain(m);
    CallsOne(p.log, Sent(KeyMessage(key, c), false, KeyMessage(key, c)));
  }

  /** Admission: the calls are still none, the key is kept, and the connection is open unless the game closes it. */
  lemma Admitted(cfg: Config, p: Peer, data: Payload, internal: nat, c: Choice)
    requires p.phase == AwaitingConnectionRequest
    ensures var q := Process(cfg, p, RequestMessage(data, cfg.version, internal), c);
            && (q.phase == Connected || q.phase == Closed) && q.key == p.key && q.expected == p.expected
            && p.log <= q.log && Calls(q.log) == Calls(p.log)
  {
    hide ArrayBytes, RequestVersion, LeBytes, React, Welcome, DetectorOff, Calls;
    var m := RequestMessage(data, cfg.version, internal);
    RequestRead(data, cfg.version, internal, []);
    assert m + [] == m;
    assert Entered(p.key, p.expected, m) == Plain(m);
    var a := Sent(Welcome(cfg), false, Welcome(cfg));
    var b := Sent(DetectorOff(), false, DetectorOff());
    CallsOne(p.log, a);
    CallsOne(p.log + [a], b);
    CallsOne(p.log + [a] + [b], Joined);
    ReactQuiet(Logged(Send(Send(p, Welcome(cfg), false).(phase := Connected), DetectorOff(), false), Joined), c.onJoin);
  }

  lemma HeardReaches(p: Peer, q: Peer, key: KeyNumbers, d: nat, ms: seq<seq<Byte>>, m: seq<Byte>)
    requires Reached(p, key, d, ms) && |ms| >= 2
    requires HeardOrCutOff(p, q, Hearing(HeardIn(Entered(p.key, p.expected, m)), NextSerial(p.key, p.expected, m)))
    ensures ReachedOrEnded(q, key, d, ms + [m])
  {
    hide Entered, NextSerial, HeardIn, Answered, Calls;
    var one := Hearing(HeardIn(Entered(p.key, p.expected, m)), NextSerial(p.key, p.expected, m));
    assert (ms + [m])[2..] == ms[2..] + [m];
    HearAppend(p.key, 0, ms[2..], [m]);
    HearOne(p.key, p.expected, m);
    NothingHeard(p.(expected := 0));
    assert |ms| == 2 ==> ms[2..] == [];
    AnsweredStays(p, q, key, d);
  }

  lemma HearOne(key: seq<Byte>, expected: Serial, m: seq<Byte>)
    ensures Hear(key, expected, [m]) == Hearing(HeardIn(Entered(key, expected, m)), NextSerial(key, expected, m))
  {
    hide Entered, NextSerial, HeardIn;
    assert [m][1..] == [];
  }

  lemma ProcessReaches(cfg: Config, p: Peer, key: KeyNumbers, d: nat, data: Payload, internal: nat,
                       ms: seq<seq<Byte>>, m: seq<Byte>, c: Choice)
    requires ClientKey(key, d) && Reached(p, key, d, ms) && Scripted(cfg, key, data, internal, ms + [m])
    ensures ReachedOrEnded(Process(cfg, p, m, c), key, d, ms + [m])
  {
    hide Process, KeyAnnouncement, RequestMessage, Entered, NextSerial, HeardIn, Answered, KeyPair, Pow, Calls, Hear;
    if |ms| == 0 {
      assert ms + [m] == [KeyAnnouncement(key)];
      Announces(cfg, p, key, d, c);
    } else if |ms| == 1 {
      Admitted(cfg, p, data, internal, c);
      AnsweredStays(p, Process(cfg, p, m, c), key, d);
    } else {
      ProcessHeard(cfg, p, m, c);
      HeardReaches(p, Process(cfg, p, m, c), key, d, ms, m);
    }
  }

  lemma QuietReaches(p: Peer, q: Peer, key: KeyNumbers, d: nat, ms: seq<seq<Byte>>)
    requires Reached(p, key, d, ms) && Quiet(p, q)
    ensures ReachedOrEnded(q, key, d, ms)
  {
    hide Answered, Calls, CallsAfterTwo;
    if |ms| > 0 { AnsweredStays(p, q, key, d); } else { FewMessages(p.key, ms); }
  }

  lemma EndedStays(p: Peer, q: Peer, ms: seq<seq<Byte>>, more: seq<seq<Byte>>)
    requires Ended(p, ms) && q.phase == Closed && q.log == p.log && q.key == p.key
    ensures Ended(q, ms + more)
  {
    hide Hear, Calls;
    if |ms| > 2 {
      assert (ms + more)[2..] == ms[2..] + more;
      HearAppend(p.key, 0, ms[2..], more);
    }
  }

  lemma ReachedIsOpen(p: Peer, key: KeyNumbers, d: nat, ms: seq<seq<Byte>>)
    requires ReachedOrEnded(p, key, d, ms)
    ensures if p.phase == Closed then Ended(p, ms) else Reached(p, key, d, ms)
  {
    hide Answered, CallsAfterTwo;
  }

  lemma {:induction false} ServedReaches(cfg: Config, p: Peer, key: KeyNumbers, d: nat, data: Payload, internal: nat,
                                         ms: seq<seq<Byte>>, buffer: seq<Byte>, choices: seq<Choice>)
    requires ClientKey(key, d) && Reached(p, key, d, ms) && Drain(buffer).error == Incomplete
    requires Scripted(cfg, key, data, internal, ms + Drain(buffer).payloads)
    ensures var r := Served(cfg, p, buffer, choices);
            && ReachedOrEnded(r.peer, key, d, ms + Drain(buffer).payloads)
            && (r.peer.phase != Closed ==> r.buffer == Drain(buffer).rest)
    decreases |buffer|
  {
    hide Process, NextFrame, KeyPair, Pow, KeyAnnouncement, RequestMessage, Reached, Ended;
    NextFrameUsed(buffer);
    if NextFrame(buffer).Frame? {
      var m, used := NextFrame(buffer).payload, NextFrame(buffer).used;
      var q := Process(cfg, p, m, First(choices));
      var rest := Drain(buffer[used..]).payloads;
      assert ms + Drain(buffer).payloads == ms + [m] + rest;
      ProcessReaches(cfg, p, key, d, data, internal, ms, m, First(choices));
      ReachedIsOpen(q, key, d, ms + [m]);
      if q.phase == Closed {
        EndedStays(q, q, ms + [m], rest);
      } else {
        ServedReaches(cfg, q, key, d, data, internal, ms + [m], buffer[used..], Others(choices));
      }
    } else {
      assert ms + [] == ms;
    }
  }

  lemma StepReaches(cfg: Config, l: Link, key: KeyNumbers, d: nat, data: Payload, internal: nat,
                    before: Drained, input: Input)
    requires ClientKey(key, d) && ReachedOrEnded(l.peer, key, d, before.payloads)
    requires l.peer.phase != Closed ==> l.buffer == before.rest
    requires var more := if input.Arrival? then Drain(before.rest + input.data).payloads else [];
             Scripted(cfg, key, data, internal, before.payloads + more)
    requires input.Arrival? ==> Drain(before.rest + input.data).error == Incomplete
    ensures var r := Step(cfg, l, input);
            if input.Arrival?
            then var n := Drain(before.rest + input.data);
                 && ReachedOrEnded(r.peer, key, d, before.payloads + n.payloads)
                 && (r.peer.phase != Closed ==> r.buffer == n.rest)
            else ReachedOrEnded(r.peer, key, d, before.payloads)
                 && (r.peer.phase != Closed ==> r.buffer == before.rest)
  {
    hide Drain, Served, React, Close, Reached, Ended, KeyPair, Pow, Scripted;
    var r := Step(cfg, l, input);
    ReachedIsOpen(l.peer, key, d, before.payloads);
    if l.peer.phase == Closed {
      ClosedStep(cfg, l, input);
      var more := if input.Arrival? then Drain(before.rest + input.data).payloads else [];
      EndedStays(l.peer, r.peer, before.payloads, more);
      assert before.payloads + [] == before.payloads;
    } else {
      match input
      case Arrival(bytes, choices) =>
        ServedReaches(cfg, l.peer, key, d, data, internal, before.payloads, l.buffer + bytes, choices);
      case Failure(onLeave) =>
        CloseQuiet(l.peer, onLeave);
        QuietReaches(l.peer, r.peer, key, d, before.payloads);
      case Elsewhere(acts) =>
        ReactQuiet(l.peer, acts);
        QuietReaches(l.peer, r.peer, key, d, before.payloads);
    }
  }

  lemma {:induction false} RunReaches(cfg: Config, key: KeyNumbers, d: nat, data: Payload, internal: nat,
                                      inputs: seq<Input>)
    requires ClientKey(key, d) && Arrived(inputs).error == Incomplete
    requires Scripted(cfg, key, data, internal, Arrived(inputs).payloads)
    ensures var r := Run(cfg, Start(cfg), inputs);
            && ReachedOrEnded(r.peer, key, d, Arrived(inputs).payloads)
            && (r.peer.phase != Closed ==> r.buffer == Arrived(inputs).rest)
  {
    hide Step, Start, Drain, Arrived, Reached, Ended, KeyPair, Pow, KeyAnnouncement, RequestMessage;
    if inputs == [] {
      NoneArrived();
      StartReached(cfg, key, d);
    } else {
      var k := |inputs| - 1;
      var before := Arrived(inputs[..k]);
      ArrivedStep(inputs);
      assert before.payloads + [] == before.payloads;
      RunReaches(cfg, key, d, data, internal, inputs[..k]);
      StepReaches(cfg, Run(cfg, Start(cfg), inputs[..k]), key, d, data, internal, before, inputs[k]);
    }
  }

  lemma StartReached(cfg: Config, key: KeyNumbers, d: nat)
    ensures Reached(Start(cfg).peer, key, d, []) && Start(cfg).buffer == []
  {
    CallsOne([], Sent(cfg.hint, false, cfg.hint));
  }

  /** All the client sends in a session: its key, its request, and payloads sealed under the session key. */
  function SessionMessages(cfg: Config, key: KeyNumbers, data: Payload, internal: nat,
                           sessionKey: seq<Byte>, payloads: seq<Payload>): (ms: seq<seq<Byte>>)
    requires key.bytes < BASE && sessionKey != []
    ensures |ms| == |payloads| + 2
  {
    [KeyAnnouncement(key), RequestMessage(data, cfg.version, internal)] + SealedAll(sessionKey, Numbered(0, payloads))
  }

  /** How many of the first `n` messages of a session follow the handshake. */
  function Said(n: nat): nat { if n <= 2 then 0 else n - 2 }

  /** Where the connection is once `n` messages have arrived: the client holds its key, it is admitted, and the calls
      made are those in what was said. */
  predicate OnTrack(q: Peer, key: KeyNumbers, d: nat, sessionKey: seq<Byte>, payloads: seq<Payload>, n: nat)
    requires n <= |payloads| + 2
  {
    && (n > 0 ==> Answered(q, key, d) && q.key == sessionKey)
    && (n > 1 ==> q.phase == Connected)
    && Calls(q.log) == CallsIn(payloads[..Said(n)])
  }

  lemma SessionLength(cfg: Config, key: KeyNumbers, data: Payload, internal: nat,
                      sessionKey: seq<Byte>, payloads: seq<Payload>)
    requires key.bytes < BASE && sessionKey != []
    ensures |SessionMessages(cfg, key, data, internal, sessionKey, payloads)| == |payloads| + 2
  {
  }

  lemma SessionCalls(cfg: Config, key: KeyNumbers, data: Payload, internal: nat,
                     sessionKey: seq<Byte>, payloads: seq<Payload>, n: nat)
    requires key.bytes < BASE && sessionKey != [] && n <= |payloads| + 2
    ensures CallsAfterTwo(sessionKey, SessionMessages(cfg, key, data, internal, sessionKey, payloads)[..n]) ==
            Hearing(CallsIn(payloads[..Said(n)]), Advanced(0, Said(n)))
  {
    hide KeyAnnouncement, RequestMessage, Sealed, Hear, CallIn, InTurn;
    if n > 2 {
      var items := Numbered(0, payloads);
      var ms := SessionMessages(cfg, key, data, internal, sessionKey, payloads);
      assert ms[..n][2..] == SealedAll(sessionKey, items)[..n - 2] == SealedAll(sessionKey, items[..n - 2]);
      HearSealed(sessionKey, 0, items[..n - 2]);
      assert items[..n - 2] == Numbered(0, payloads[..n - 2]);
      NumberedInTurn(0, payloads[..n - 2]);
    }
  }

  /** A whole session, from the first byte, with the stream cut anywhere and anything happening in between.  The client
      announces its key, asks to be admitted, and seals what it has to say under the key the connection then uses,
      which it finds in the answer.  As far as messages have arrived, and as long as the connection is open, the
      handshake is where it should be and the calls made are exactly those in what the client said; if the
      connection is closed on the way, a prefix of them. */
  lemma WholeSession(cfg: Config, key: KeyNumbers, d: nat, data: Payload, internal: nat, sessionKey: seq<Byte>,
                     payloads: seq<Payload>, inputs: seq<Input>, pending: seq<Byte>)
    requires ClientKey(key, d) && sessionKey != []
    requires AllSmall(SessionMessages(cfg, key, data, internal, sessionKey, payloads))
    requires Concat(Reads(inputs)) + pending ==
             Frames(SessionMessages(cfg, key, data, internal, sessionKey, payloads))
    requires var q := Run(cfg, Start(cfg), inputs).peer; q.key != [] ==> q.key == sessionKey
    ensures var q := Run(cfg, Start(cfg), inputs).peer; var n := |Arrived(inputs).payloads|;
            && n <= |payloads| + 2 && (pending == [] ==> n == |payloads| + 2)
            && Calls(q.log) <= CallsIn(payloads)
            && (q.phase != Closed ==> OnTrack(q, key, d, sessionKey, payloads, n))
  {
    hide Run, Start, Drain, Frames, Receive, Concat, Calls, CallsIn, Reads, Answered, Sealed, KeyPair, Pow,
      KeyAnnouncement, RequestMessage, AllSmall, Reached, Ended, OnTrack;
    var ms := SessionMessages(cfg, key, data, internal, sessionKey, payloads);
    var n := |Arrived(inputs).payloads|;
    ChunkingIsIrrelevant(Reads(inputs));
    FirstFrames(ms, Concat(Reads(inputs)), pending);
    assert Arrived(inputs).payloads == ms[..n];
    RunReaches(cfg, key, d, data, internal, inputs);
    SessionEnds(cfg, key, d, data, internal, sessionKey, payloads, Run(cfg, Start(cfg), inputs).peer, n);
  }

  lemma SessionEnds(cfg: Config, key: KeyNumbers, d: nat, data: Payload, internal: nat, sessionKey: seq<Byte>,
                    payloads: seq<Payload>, q: Peer, n: nat)
    requires key.bytes < BASE && sessionKey != [] && n <= |payloads| + 2 && (q.key != [] ==> q.key == sessionKey)
    requires ReachedOrEnded(q, key, d, SessionMessages(cfg, key, data, internal, sessionKey, payloads)[..n])
    ensures Calls(q.log) <= CallsIn(payloads)
    ensures q.phase != Closed ==> OnTrack(q, key, d, sessionKey, payloads, n)
  {
    hide Calls, SessionMessages, CallsIn, Reached, Ended, OnTrack;
    SessionLength(cfg, key, data, internal, sessionKey, payloads);
    ReachedIsOpen(q, key, d, SessionMessages(cfg, key, data, internal, sessionKey, payloads)[..n]);
    if q.phase == Closed {
      SessionCut(cfg, key, data, internal, sessionKey, payloads, q, n);
    } else {
      SessionOpen(cfg, key, d, data, internal, sessionKey, payloads, q, n);
      TrackWithin(q, key, d, sessionKey, payloads, n);
    }
  }

  lemma WithinSaid(calls: seq<Event>, payloads: seq<Payload>, n: nat)
    requires n <= |payloads| + 2 && calls <= CallsIn(payloads[..Said(n)])
    ensures calls <= CallsIn(payloads)
  {
    hide CallsIn;
    CallsInPrefix(payloads, Said(n));
  }

  lemma SessionOpen(cfg: Config, key: KeyNumbers, d: nat, data: Payload, internal: nat, sessionKey: seq<Byte>,
                    payloads: seq<Payload>, q: Peer, n: nat)
    requires key.bytes < BASE && sessionKey != [] && n <= |payloads| + 2 && (q.key != [] ==> q.key == sessionKey)
    requires Reached(q, key, d, SessionMessages(cfg, key, data, internal, sessionKey, payloads)[..n])
    ensures OnTrack(q, key, d, sessionKey, payloads, n)
  {
    hide Calls, Answered, SessionMessages, CallsIn, CallsAfterTwo, Reached;
    SessionLength(cfg, key, data, internal, sessionKey, payloads);
    var ms := SessionMessages(cfg, key, data, internal, sessionKey, payloads)[..n];
    SessionCalls(cfg, key, data, internal, sessionKey, payloads, n);
    ReachedSays(q, key, d, sessionKey, ms);
  }

  lemma TrackWithin(q: Peer, key: KeyNumbers, d: nat, sessionKey: seq<Byte>, payloads: seq<Payload>, n: nat)
    requires n <= |payloads| + 2 && OnTrack(q, key, d, sessionKey, payloads, n)
    ensures Calls(q.log) <= CallsIn(payloads)
  {
    hide Calls, Answered, CallsIn;
    WithinSaid(Calls(q.log), payloads, n);
  }

  lemma ReachedSays(q: Peer, key: KeyNumbers, d: nat, sessionKey: seq<Byte>, ms: seq<seq<Byte>>)
    requires Reached(q, key, d, ms) && (q.key != [] ==> q.key == sessionKey)
    ensures |ms| > 0 ==> Answered(q, key, d) && q.key == sessionKey
    ensures |ms| > 1 ==> q.phase == Connected
    ensures Calls(q.log) == CallsAfterTwo(sessionKey, ms).calls
  {
    hide Calls, Answered, CallsAfterTwo;
    FewMessages(q.key, ms);
    FewMessages(sessionKey, ms);
  }

  lemma FewMessages(key: seq<Byte>, ms: seq<seq<Byte>>)
    ensures |ms| <= 2 ==> CallsAfterTwo(key, ms) == Hearing([], 0)
  {
  }

  lemma SessionCut(cfg: Config, key: KeyNumbers, data: Payload, internal: nat, sessionKey: seq<Byte>,
                   payloads: seq<Payload>, q: Peer, n: nat)
    requires key.bytes < BASE && sessionKey != [] && n <= |payloads| + 2 && (q.key != [] ==> q.key == sessionKey)
    requires Ended(q, SessionMessages(cfg, key, data, internal, sessionKey, payloads)[..n])
    ensures Calls(q.log) <= CallsIn(payloads)
  {
    hide Calls, SessionMessages, CallIn, CallsAfterTwo, Advanced;
    SessionLength(cfg, key, data, internal, sessionKey, payloads);
    SessionCalls(cfg, key, data, internal, sessionKey, payloads, n);
    WithinSaid(Calls(q.log), payloads, n);
  }
}
