/**
  What a connection does with what it is given, exactly: where each kind of message leads, what is sent in which form,
  and every way the handshake can end.
 */
module PeerEffects {
  import opened Arith
  import opened Bytes
  import opened Wire
  import opened Framing
  import opened Pipeline
  import opened Rsa
  import opened Limbs
  import opened Phases
  import opened Peers
  import opened Conversation
  import PeerLife
  import Rc4

  // --- Where a message leads ---------------------------------------------------------------------

  /** A call by number. */
  datatype Rmi = Rmi(id: nat, params: seq<Byte>)

  /** Numbers have 16 bits, and the message has to fit a frame. */
  predicate Callable(r: Rmi) { r.id < 0x1_0000 && |r.params| <= MAX_PAYLOAD }

  function RmiMessage(r: Rmi): Payload
    requires Callable(r)
  {
    [1] + LeBytes(r.id, 2) + r.params
  }

  predicate IsCore(r: Rmi) { 64001 <= r.id <= 64019 }

  /** An RMI leads to one call with its number and parameters: to the core if the number is from 64001 to 64019, and to
      the game for any other number. */
  lemma RmiLeadsTo(r: Rmi)
    requires Callable(r)
    ensures CallOf(RmiMessage(r)) == Call(if IsCore(r) then CoreRmi(r.id, r.params) else GameRmi(r.id, r.params))
  {
    hide LeBytes, BytesVal, Pow, NumberAt;
    var m := RmiMessage(r);
    TwoByteSpan();
    assert m[1..3] == LeBytes(r.id, 2);
    NumberBack(m, 1, r.id, 2);
    assert m[3..] == r.params;
  }

  lemma TwoByteSpan()
    ensures Pow(256, 2) == 0x1_0000
  {
    PowAdd(256, 1, 1);
  }

  /** Any other message goes to the core as it is, except those of the handshake and envelopes, which lead nowhere. */
  lemma OthersLeadTo(kind: Byte, body: seq<Byte>)
    requires kind != 1
    ensures CallOf([kind] + body) ==
            if kind == 5 || kind == 7 || kind == 36 || kind == 37 then NoCall else Call(CoreMessage(kind, body))
  {
    assert ([kind] + body)[1..] == body;
  }

  /** An RMI too short for its number leads to nothing, and so does an empty message. */
  lemma ShortLeadsNowhere(m: seq<Byte>)
    requires m == [] || (m[0] == 1 && |m| < 3)
    ensures CallOf(m) == NoCall
  {
  }

  // --- What a sequence of RMIs leads to ----------------------------------------------------------

  predicate AllCallable(rs: seq<Rmi>) { forall i | 0 <= i < |rs| :: Callable(rs[i]) }

  function RmiMessages(rs: seq<Rmi>): (ms: seq<Payload>)
    requires AllCallable(rs)
    ensures |ms| == |rs|
  {
    seq(|rs|, i requires 0 <= i < |rs| => RmiMessage(rs[i]))
  }

  /** The calls that reached the game. */
  function ToGame(log: seq<Event>): seq<Rmi> {
    if log == [] then []
    else
      var e := log[|log| - 1];
      ToGame(log[..|log| - 1]) + if e.GameRmi? then [Rmi(e.id, e.params)] else []
  }

  /** The calls that reached the core. */
  function ToCore(log: seq<Event>): seq<Rmi> {
    if log == [] then []
    else
      var e := log[|log| - 1];
      ToCore(log[..|log| - 1]) + if e.CoreRmi? then [Rmi(e.id, e.params)] else []
  }

  /** The RMIs with a number on one side or the other. */
  function Those(rs: seq<Rmi>, core: bool): seq<Rmi> {
    if rs == [] then [] else (if IsCore(rs[0]) == core then [rs[0]] else []) + Those(rs[1..], core)
  }

  lemma {:induction false} ToEachAppend(a: seq<Event>, b: seq<Event>)
    ensures ToGame(a + b) == ToGame(a) + ToGame(b) && ToCore(a + b) == ToCore(a) + ToCore(b)
    decreases |b|
  {
    if b == [] {
      assert a + b == a;
    } else {
      var k := |b| - 1;
      assert (a + b)[..|a + b| - 1] == a + b[..k];
      ToEachAppend(a, b[..k]);
    }
  }

  lemma {:induction false} OnlyCallsCount(log: seq<Event>)
    ensures ToGame(log) == ToGame(Calls(log)) && ToCore(log) == ToCore(Calls(log))
  {
    if log != [] {
      var k := |log| - 1;
      OnlyCallsCount(log[..k]);
      ToEachAppend(Calls(log[..k]), if IsCall(log[k]) then [log[k]] else []);
      ToOne(log[k]);
    }
  }

  lemma ToOne(e: Event)
    ensures ToGame([e]) == (if e.GameRmi? then [Rmi(e.id, e.params)] else [])
    ensures ToCore([e]) == (if e.CoreRmi? then [Rmi(e.id, e.params)] else [])
    ensures ToGame([]) == [] && ToCore([]) == []
  {
    assert [e][..0] == [];
  }

  /** The calls of a sequence of RMIs, sorted by where they go. */
  lemma {:induction false} RmisLeadTo(rs: seq<Rmi>)
    requires AllCallable(rs)
    ensures ToGame(CallsIn(RmiMessages(rs))) == Those(rs, false) && ToCore(CallsIn(RmiMessages(rs))) == Those(rs, true)
  {
    hide CallOf, RmiMessage, ToGame, ToCore;
    if rs == [] {
      ToOne(Joined);
    } else {
      var ms := RmiMessages(rs);
      assert ms[1..] == RmiMessages(rs[1..]);
      RmisLeadTo(rs[1..]);
      RmiLeadsTo(rs[0]);
      var e := CallOf(ms[0]).event;
      assert CallIn(ms[0]) == [e];
      ToOne(e);
      ToEachAppend([e], CallsIn(ms[1..]));
    }
  }

  lemma PrefixLeadsToPrefix(a: seq<Event>, b: seq<Event>)
    requires a <= b
    ensures ToGame(a) <= ToGame(b) && ToCore(a) <= ToCore(b)
  {
    hide ToGame, ToCore;
    assert b == a + b[|a|..];
    ToEachAppend(a, b[|a|..]);
  }

  /** The RMIs that have arrived reached whom they are for. */
  predicate ReachedBoth(p: Peer, q: Peer, rs: seq<Rmi>) {
    ToGame(q.log) == ToGame(p.log) + Those(rs, false) && ToCore(q.log) == ToCore(p.log) + Those(rs, true)
  }

  /** A client on an open connection calls by number: what reaches the game are exactly the calls outside 64001..64019,
      in order and with their parameters, and what reaches the core those inside, however the stream is cut and whatever
      happens meanwhile, as far as the calls have arrived; if the connection is closed on the way, the first of them. */
  lemma RmisAreHeard(cfg: Config, l: Link, inputs: seq<Input>, rs: seq<Rmi>, pending: seq<Byte>)
    requires l.peer.phase == Connected && l.peer.key != [] && l.buffer == [] && AllCallable(rs)
    requires Sendable(l.peer.key, Numbered(l.peer.expected, RmiMessages(rs)))
    requires Concat(Reads(inputs)) + pending ==
             Frames(SealedAll(l.peer.key, Numbered(l.peer.expected, RmiMessages(rs))))
    ensures var q := Run(cfg, l, inputs).peer; var n := |Arrived(inputs).payloads|;
            && n <= |rs| && (pending == [] ==> n == |rs|)
            && (q.phase != Closed ==> ReachedBoth(l.peer, q, rs[..n]))
            && ToGame(q.log) <= ToGame(l.peer.log) + Those(rs, false)
            && ToCore(q.log) <= ToCore(l.peer.log) + Those(rs, true)
  {
    hide Run, Frames, Receive, Concat, Reads, Calls, CallsIn, Sealed, ToGame, ToCore, Those, RmiMessage, Advanced;
    var q := Run(cfg, l, inputs).peer;
    var before := Calls(l.peer.log);
    EverythingIsHeard(cfg, l, inputs, RmiMessages(rs), pending);
    var n := |Arrived(inputs).payloads|;
    assert RmiMessages(rs)[..n] == RmiMessages(rs[..n]);
    RmisLeadTo(rs[..n]);
    RmisLeadTo(rs);
    OnlyCallsCount(q.log);
    OnlyCallsCount(l.peer.log);
    ToEachAppend(before, CallsIn(RmiMessages(rs[..n])));
    ToEachAppend(before, CallsIn(RmiMessages(rs)));
    PrefixLeadsToPrefix(Calls(q.log), before + CallsIn(RmiMessages(rs)));
  }

  /** The same from the first byte of a session. */
  lemma SessionRmisAreHeard(cfg: Config, key: KeyNumbers, d: nat, data: Payload, internal: nat, sessionKey: seq<Byte>,
                            rs: seq<Rmi>, inputs: seq<Input>)
    requires ClientKey(key, d) && sessionKey != [] && AllCallable(rs)
    requires AllSmall(SessionMessages(cfg, key, data, internal, sessionKey, RmiMessages(rs)))
    requires Concat(Reads(inputs)) == Frames(SessionMessages(cfg, key, data, internal, sessionKey, RmiMessages(rs)))
    requires var q := Run(cfg, Start(cfg), inputs).peer; q.phase != Closed && (q.key != [] ==> q.key == sessionKey)
    ensures var q := Run(cfg, Start(cfg), inputs).peer;
            ToGame(q.log) == Those(rs, false) && ToCore(q.log) == Those(rs, true)
  {
    hide Run, Start, Frames, Receive, Concat, Reads, Calls, CallsIn, SessionMessages, ToGame, ToCore, Those, RmiMessage,
      AllSmall, KeyPair, Pow, Answered;
    var q := Run(cfg, Start(cfg), inputs).peer;
    assert Concat(Reads(inputs)) + [] == Concat(Reads(inputs));
    WholeSession(cfg, key, d, data, internal, sessionKey, RmiMessages(rs), inputs, []);
    assert RmiMessages(rs)[..|rs|] == RmiMessages(rs);
    RmisLeadTo(rs);
    OnlyCallsCount(q.log);
  }

  // --- In which form a payload is sent -----------------------------------------------------------

  /** A closed connection sends nothing.  An open one sends one message: sealed with the serial that is due if that was
      asked for and there is a key, and otherwise the payload as it is. */
  lemma SendsExactly(p: Peer, payload: Payload, encrypt: bool)
    ensures var q := Send(p, payload, encrypt);
            if p.phase == Closed then q == p
            else && |q.log| == |p.log| + 1 && p.log <= q.log && q.log[|p.log|].Sent? && q.phase == p.phase
                 && (if encrypt && p.key != []
                     then Entered(p.key, p.next, q.log[|p.log|].message) == Inner(payload)
                          && IsEncrypted(q.log[|p.log|].message) && q.next == (p.next + 1) % 0x1_0000
                     else q.log[|p.log|].message == payload && q.next == p.next)
  {
    hide Sealed, Entered;
    if p.phase != Closed && encrypt && p.key != [] { SealedOpens(p.key, p.next, p.next, payload); }
  }

  // --- How the handshake can go ------------------------------------------------------------------

  /** The first thing on a connection is the connection hint. */
  lemma HintComesFirst(cfg: Config)
    ensures Start(cfg).peer == Peer(AwaitingPublicKey, [], 0, 0, [Sent(cfg.hint, false, cfg.hint)])
    ensures Start(cfg).buffer == []
  {
  }

  /** The session key is what was drawn, and so is the padding, as far as it is drawn from 1..255. */
  lemma KeyIsDrawn(c: Choice, n: nat)
    ensures |c.session| == 16 ==> SessionKey(c) == c.session
    ensures |c.draws| == n && (forall i | 0 <= i < n :: c.draws[i] != 0) ==> Padding(c, n) == c.draws
  {
  }

  lemma AnnouncementRead(p: Peer, blob: seq<Byte>)
    requires InRange(|blob|, 8)
    ensures var m := [PUBLIC_KEY] + ArrayBytes(blob);
            Entered(p.key, p.expected, m) == Plain(m) && m[0] == PUBLIC_KEY && ArrayAt(m, 1).result == Ok(blob)
  {
    hide ArrayAt, ArrayBytes;
    ArrayAfter(PUBLIC_KEY, blob);
  }

  /** A blob that is no key closes the connection, with nothing sent and nobody told. */
  lemma BadKeyCloses(cfg: Config, p: Peer, blob: seq<Byte>, c: Choice)
    requires p.phase == AwaitingPublicKey && InRange(|blob|, 8) && ParsedKey(blob).Err?
    ensures Process(cfg, p, [5] + ArrayBytes(blob), c) == p.(phase := Closed, log := p.log + [Released])
  {
    hide ArrayAt, ArrayBytes, ParsedKey, Entered;
    AnnouncementRead(p, blob);
    PeerLife.CloseIs(p, c.onLeave);
  }

  /** A key too short to wrap the session key in leaves the phase as it was, and the key already drawn. */
  lemma ShortKeyThrows(cfg: Config, p: Peer, blob: seq<Byte>, c: Choice)
    requires p.phase == AwaitingPublicKey && InRange(|blob|, 8)
    requires ParsedKey(blob).Ok? && ParsedKey(blob).value.bytes < 27
    ensures Process(cfg, p, [5] + ArrayBytes(blob), c) == p.(key := SessionKey(c))
  {
    hide ArrayAt, ArrayBytes, ParsedKey, Entered;
    AnnouncementRead(p, blob);
  }

  /** A request for another protocol version is told so and the connection closed. */
  lemma MismatchIsTold(cfg: Config, p: Peer, data: Payload, version: Guid, internal: nat, c: Choice)
    requires p.phase == AwaitingConnectionRequest && version != cfg.version
    ensures Process(cfg, p, RequestMessage(data, version, internal), c) ==
            p.(phase := Closed, log := p.log + [Sent([8], false, [8]), Released])
  {
    hide ArrayBytes, RequestVersion, LeBytes;
    var m := RequestMessage(data, version, internal);
    RequestRead(data, version, internal, []);
    assert m + [] == m;
    assert Entered(p.key, p.expected, m) == Plain(m);
    var told := Send(p, [VERSION_MISMATCH], false);
    PeerLife.CloseIs(told, c.onLeave);
    assert p.log + [Sent([8], false, [8])] + [Released] == p.log + [Sent([8], false, [8]), Released];
  }

  function Admission(cfg: Config): seq<Event> {
    [Sent(Welcome(cfg), false, Welcome(cfg)), Sent(DetectorOff(), false, DetectorOff()), Joined]
  }

  /** An admitted client is welcomed, told that the detector is off, and only then handed to the game. */
  lemma AdmissionInOrder(cfg: Config, p: Peer, data: Payload, internal: nat, c: Choice)
    requires p.phase == AwaitingConnectionRequest
    ensures var q := Process(cfg, p, RequestMessage(data, cfg.version, internal), c);
            p.log + Admission(cfg) <= q.log
  {
    hide ArrayBytes, RequestVersion, LeBytes, React, Welcome, DetectorOff;
    var m := RequestMessage(data, cfg.version, internal);
    RequestRead(data, cfg.version, internal, []);
    assert m + [] == m;
    assert Entered(p.key, p.expected, m) == Plain(m);
    var r := Logged(Send(Send(p, Welcome(cfg), false).(phase := Connected), DetectorOff(), false), Joined);
    ReactQuiet(r, c.onJoin);
    assert r.log == p.log + Admission(cfg);
  }

  /** A public key cut short is not looked at. */
  lemma CutKeyIgnored(cfg: Config, p: Peer, length: int, part: seq<Byte>, c: Choice)
    requires InRange(length, 8) && |part| < length
    ensures Process(cfg, p, [5] + ScalarBytes(length) + part, c) == p
  {
    hide ScalarAt, ScalarBytes;
    var m := [PUBLIC_KEY] + ScalarBytes(length) + part;
    assert Entered(p.key, p.expected, m) == Plain(m);
    assert m[1..1 + |ScalarBytes(length)|] == ScalarBytes(length);
    ScalarBack(m, 1, length);
  }

  /** Nor is a connection request without the whole of its two versions. */
  lemma CutRequestIgnored(cfg: Config, p: Peer, data: Payload, part: seq<Byte>, c: Choice)
    requires |part| < 20
    ensures Process(cfg, p, [7] + ArrayBytes(data) + part, c) == p
  {
    hide ArrayAt, ArrayBytes, BytesVal;
    var m := [CONNECTION_REQUEST] + ArrayBytes(data) + part;
    assert Entered(p.key, p.expected, m) == Plain(m);
    assert m[1..1 + |ArrayBytes(data)|] == ArrayBytes(data);
    ArrayBack(m, 1, data);
    assert RequestVersion(m).Err?;
  }

  /** Messages of the handshake out of turn do nothing. */
  lemma OutOfTurnIgnored(cfg: Config, p: Peer, body: seq<Byte>, c: Choice)
    ensures p.phase != AwaitingPublicKey ==> Process(cfg, p, [5] + body, c) == p
    ensures p.phase != AwaitingConnectionRequest ==> Process(cfg, p, [7] + body, c) == p
  {
    assert Entered(p.key, p.expected, [5] + body) == Plain([5] + body);
    assert Entered(p.key, p.expected, [7] + body) == Plain([7] + body);
  }

  /** An envelope inside an envelope is opened once and then ignored. */
  lemma NestedIgnored(cfg: Config, p: Peer, message: seq<Byte>, c: Choice)
    requires IsEncrypted(message) && Entered(p.key, p.expected, message).Inner?
    requires IsEncrypted(Entered(p.key, p.expected, message).payload)
    ensures Process(cfg, p, message, c) == p.(expected := NextSerial(p.key, p.expected, message))
  {
    hide Unsealed, React;
  }

  // --- How a connection ends ---------------------------------------------------------------------

  /** A malformed frame closes the connection, whatever came before it. */
  lemma {:induction false} MalformedCloses(cfg: Config, p: Peer, buffer: seq<Byte>, choices: seq<Choice>)
    requires Drain(buffer).error != Incomplete
    ensures Served(cfg, p, buffer, choices).peer.phase == Closed
    decreases |buffer|
  {
    hide Process, NextFrame, Close;
    NextFrameUsed(buffer);
    if NextFrame(buffer).Stop? {
      CloseQuiet(p, First(choices).onLeave);
    } else {
      var m, used := NextFrame(buffer).payload, NextFrame(buffer).used;
      MalformedCloses(cfg, Process(cfg, p, m, First(choices)), buffer[used..], Others(choices));
    }
  }

  /** So does a failure of the socket. */
  lemma FailureCloses(cfg: Config, l: Link, onLeave: seq<Act>)
    ensures Step(cfg, l, Failure(onLeave)).peer.phase == Closed
  {
    hide Close;
    CloseQuiet(l.peer, onLeave);
  }
}
