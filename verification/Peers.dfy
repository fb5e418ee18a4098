/**
  One connection: the handshake phases, the callbacks into the game, and a close that re-enters it.  What a
  callback does to the connection it was called for is arbitrary: any sends and closes, nested as deep as the
  game likes.
 */
module Peers {
  import opened Arith
  import opened Bytes
  import opened Wire
  import opened Framing
  import opened Pipeline
  import opened Rsa
  import opened Phases

  function Rank(f: Phase): nat {
    match f case AwaitingPublicKey => 0 case AwaitingConnectionRequest => 1 case Connected => 2 case Closed => 3
  }

  /** What the connection does to the outside. */
  datatype Event =
    | Sent(payload: Payload, sealed: bool, message: seq<Byte>)
    | Joined
    | Left
    | Released
    | CoreMessage(kind: Byte, body: seq<Byte>)
    | CoreRmi(id: nat, params: seq<Byte>)
    | GameRmi(id: nat, params: seq<Byte>)

  predicate IsCall(e: Event) { e.CoreMessage? || e.CoreRmi? || e.GameRmi? }

  datatype Peer = Peer(phase: Phase, key: seq<Byte>, expected: Serial, next: Serial, log: seq<Event>)

  /** What a callback may do to the connection. */
  datatype Act = DoSend(payload: Payload, encrypt: bool) | DoClose(onLeave: seq<Act>)

  // --- Sending and closing -----------------------------------------------------------------------

  function Logged(p: Peer, e: Event): Peer { p.(log := p.log + [e]) }

  function Send(p: Peer, payload: Payload, encrypt: bool): Peer {
    if p.phase == Closed then p
    else if encrypt && p.key != [] then
      Logged(p, Sent(payload, true, Sealed(p.key, p.next, payload))).(next := Successor(p.next))
    else Logged(p, Sent(payload, false, payload))
  }

  /** The game hears of the loss of a client it was told about, and only then is the id given back. */
  function Close(p: Peer, onLeave: seq<Act>): Peer
    decreases onLeave, 1
  {
    if p.phase == Closed then p
    else if p.phase == Connected then Logged(React(Logged(p.(phase := Closed), Left), onLeave), Released)
    else Logged(p.(phase := Closed), Released)
  }

  function Do(p: Peer, act: Act): Peer
    decreases act, 0
  {
    match act
    case DoSend(payload, encrypt) => Send(p, payload, encrypt)
    case DoClose(onLeave) => Close(p, onLeave)
  }

  function React(p: Peer, acts: seq<Act>): Peer
    decreases acts, 0
  {
    if acts == [] then p else React(Do(p, acts[0]), acts[1..])
  }

  // --- Payloads ----------------------------------------------------------------------------------

  type Guid = g: seq<Byte> | |g| == 16 witness seq(16, _ => 0)
  type Address = a: seq<Byte> | |a| == 4 witness seq(4, _ => 0)

  /** What the server knows of itself and of the socket. */
  datatype Config = Config(version: Guid, instance: Guid, id: nat, address: Address, port: nat, hint: Payload)

  /** What is not determined by the bytes received: random draws and the game's reactions. */
  datatype Choice = Choice(session: seq<Byte>, draws: seq<Byte>, onJoin: seq<Act>, onCall: seq<Act>, onLeave: seq<Act>)

  const RMI: Byte := 1
  const PUBLIC_KEY: Byte := 5
  const SESSION_KEY: Byte := 6
  const CONNECTION_REQUEST: Byte := 7
  const VERSION_MISMATCH: Byte := 8
  const CONNECT_SUCCESS: Byte := 10
  const SESSION_KEY_BYTES: nat := 16
  const FIRST_CORE_RMI: nat := 64001
  const LAST_CORE_RMI: nat := 64019
  const SPEED_HACK_DETECTOR: nat := 64512

  /** The sixteen bytes drawn for a session key. */
  function SessionKey(c: Choice): (key: seq<Byte>)
    ensures |key| == SESSION_KEY_BYTES
  {
    seq(SESSION_KEY_BYTES, i requires 0 <= i < SESSION_KEY_BYTES => if i < |c.session| then c.session[i] else 0)
  }

  /** The padding drawn for it: bytes from 1 to 255. */
  function Padding(c: Choice, n: nat): (s: seq<Byte>)
    ensures |s| == n && forall i | 0 <= i < n :: s[i] != 0
  {
    seq(n, i requires 0 <= i < n => if i < |c.draws| && c.draws[i] != 0 then c.draws[i] else 1)
  }

  /** A key too short to wrap the session key makes the wrap throw. */
  predicate TooShort(key: KeyNumbers) { key.bytes < SESSION_KEY_BYTES + 11 }

  function WrappedKey(key: KeyNumbers, c: Choice): seq<Byte>
    requires !TooShort(key)
  {
    SimpleBlob(key.modulus, key.exponent, key.bytes, SessionKey(c), Padding(c, key.bytes - 3 - SESSION_KEY_BYTES))
  }

  lemma WrappedKeyFits(key: KeyNumbers, c: Choice)
    requires !TooShort(key) && key.bytes < 0x1000_0000_0000
    ensures InRange(|WrappedKey(key, c)|, 8)
  {
    hide LeBytes, Encrypted;
  }

  /** The message that carries the session key to the client. */
  function KeyMessage(key: KeyNumbers, c: Choice): Payload
    requires !TooShort(key) && key.bytes < 0x1000_0000_0000
  {
    [SESSION_KEY] + ArrayBytes(WrappedKey(key, c))
  }

  lemma ParsedKeyBound(blob: seq<Byte>)
    ensures ParsedKey(blob).Ok? ==> ParsedKey(blob).value.bytes < 0x1000_0000_0000
  {
    hide BytesVal, Pow;
    if |blob| >= 20 {
      BytesValBound(blob[12..16]);
      FourBytes();
    }
  }

  lemma FourBytes()
    ensures Pow(256, 4) == 0x1_0000_0000
  {
    PowAdd(256, 1, 1);
    PowAdd(256, 2, 2);
  }

  function OnPublicKey(p: Peer, message: seq<Byte>, c: Choice): Peer
    requires message != []
  {
    var blob := ArrayAt(message, 1).result;
    if blob.Err? then p
    else
      var key := ParsedKey(blob.value);
      ParsedKeyBound(blob.value);
      if key.Err? then Close(p, c.onLeave)
      else if TooShort(key.value) then p.(key := SessionKey(c))
      else Send(p.(key := SessionKey(c)), KeyMessage(key.value, c), false).(phase := AwaitingConnectionRequest)
  }

  /** The protocol version a connection request names, if it can be read. */
  function RequestVersion(message: seq<Byte>): Result<seq<Byte>>
    requires message != []
  {
    var data := ArrayAt(message, 1);
    if data.result.Err? then Err(data.result.error)
    else
      var version := TakeAt(message, data.next, 16);
      if version.result.Err? then version.result
      else
        var internal := NumberAt(message, version.next, 4);
        if internal.result.Err? then Err(internal.result.error) else version.result
  }

  function Welcome(cfg: Config): Payload {
    [CONNECT_SUCCESS] + LeBytes(cfg.id, 4) + cfg.instance + ArrayBytes([]) + cfg.address + LeBytes(cfg.port, 2)
  }

  function DetectorOff(): Payload { [RMI] + LeBytes(SPEED_HACK_DETECTOR, 2) + [0] }

  function OnConnectionRequest(cfg: Config, p: Peer, message: seq<Byte>, c: Choice): Peer
    requires message != []
  {
    var version := RequestVersion(message);
    if version.Err? then p
    else if version.value != cfg.version then Close(Send(p, [VERSION_MISMATCH], false), c.onLeave)
    else
      var q := Send(p, Welcome(cfg), false).(phase := Connected);
      React(Logged(Send(q, DetectorOff(), false), Joined), c.onJoin)
  }

  /** The call a message leads to on a connected peer, if any. */
  datatype MaybeCall = NoCall | Call(event: Event)

  function CallOf(message: seq<Byte>): (r: MaybeCall)
    ensures r.Call? ==> IsCall(r.event)
  {
    if message == [] || message[0] == PUBLIC_KEY || message[0] == CONNECTION_REQUEST || IsEncrypted(message) then NoCall
    else if message[0] == RMI then
      var id := NumberAt(message, 1, 2);
      if id.result.Err? then NoCall
      else if FIRST_CORE_RMI <= id.result.value <= LAST_CORE_RMI then Call(CoreRmi(id.result.value, message[id.next..]))
      else Call(GameRmi(id.result.value, message[id.next..]))
    else Call(CoreMessage(message[0], message[1..]))
  }

  function Dispatch(p: Peer, message: seq<Byte>, c: Choice): Peer {
    if p.phase == Connected && CallOf(message).Call? then React(Logged(p, CallOf(message).event), c.onCall) else p
  }

  /** `process_payload` on a message that is not itself an envelope. */
  function Handle(cfg: Config, p: Peer, message: seq<Byte>, c: Choice): Peer {
    if message == [] then p
    else if message[0] == PUBLIC_KEY then if p.phase == AwaitingPublicKey then OnPublicKey(p, message, c) else p
    else if message[0] == CONNECTION_REQUEST then
      if p.phase == AwaitingConnectionRequest then OnConnectionRequest(cfg, p, message, c) else p
    else Dispatch(p, message, c)
  }

  /** `process_payload`: an envelope is opened once. */
  function Process(cfg: Config, p: Peer, message: seq<Byte>, c: Choice): Peer {
    match Entered(p.key, p.expected, message)
    case Plain(m) => Handle(cfg, p, m, c)
    case Inner(m) => Handle(cfg, p.(expected := NextSerial(p.key, p.expected, message)), m, c)
    case Dropped => p
    case Faulty => p
  }

  // --- Reads -------------------------------------------------------------------------------------

  datatype Link = Link(peer: Peer, buffer: seq<Byte>)

  const QUIET := Choice([], [], [], [], [])

  function First(choices: seq<Choice>): Choice { if choices == [] then QUIET else choices[0] }

  function Others(choices: seq<Choice>): seq<Choice> { if choices == [] then [] else choices[1..] }

  /** The connection drains its buffer until the parser wants more, fails, or the peer is closed. */
  function Served(cfg: Config, p: Peer, buffer: seq<Byte>, choices: seq<Choice>): Link
    decreases |buffer|
  {
    match NextFrame(buffer)
    case Stop(e) => Link(if e == Incomplete then p else Close(p, First(choices).onLeave), buffer)
    case Frame(message, used) =>
      var q := Process(cfg, p, message, First(choices));
      if q.phase == Closed then Link(q, buffer[used..]) else Served(cfg, q, buffer[used..], Others(choices))
  }

  /** Bytes arrive, the socket fails or times out, or the rest of the server acts on the connection. */
  datatype Input =
    | Arrival(data: seq<Byte>, choices: seq<Choice>)
    | Failure(onLeave: seq<Act>)
    | Elsewhere(acts: seq<Act>)

  function Step(cfg: Config, l: Link, input: Input): Link {
    match input
    case Arrival(data, choices) => Served(cfg, l.peer, l.buffer + data, choices)
    case Failure(onLeave) => l.(peer := Close(l.peer, onLeave))
    case Elsewhere(acts) => l.(peer := React(l.peer, acts))
  }

  function Start(cfg: Config): Link {
    Link(Send(Peer(AwaitingPublicKey, [], 0, 0, []), cfg.hint, false), [])
  }

  function Run(cfg: Config, l: Link, inputs: seq<Input>): Link {
    if inputs == [] then l else Step(cfg, Run(cfg, l, inputs[..|inputs| - 1]), inputs[|inputs| - 1])
  }
}
