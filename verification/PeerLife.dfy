/**
  The life of a connection over every run: phases only move forward, joins and leaves pair up, the id is given
  back once and last, nothing is called outside `Connected`, the session key stays, and every sealed message
  carries the serial that is due.
 */
module PeerLife {
  import opened Bytes
  import opened Framing
  import opened Pipeline
  import opened Phases
  import opened Peers

  // --- The order of events -----------------------------------------------------------------------

  datatype Stage = Waiting | Inside | Leaving | Gone | Broken

  function After(s: Stage, e: Event): Stage {
    match e
    case Sent(_, _, _) => if s.Waiting? || s.Inside? then s else Broken
    case Joined => if s.Waiting? then Inside else Broken
    case Left => if s.Inside? then Leaving else Broken
    case Released => if s.Waiting? || s.Leaving? then Gone else Broken
    case CoreMessage(_, _) => if s.Inside? then s else Broken
    case CoreRmi(_, _) => if s.Inside? then s else Broken
    case GameRmi(_, _) => if s.Inside? then s else Broken
  }

  function Follow(log: seq<Event>): Stage {
    if log == [] then Waiting else After(Follow(log[..|log| - 1]), log[|log| - 1])
  }

  function StageOf(f: Phase): Stage {
    match f
    case AwaitingPublicKey => Waiting
    case AwaitingConnectionRequest => Waiting
    case Connected => Inside
    case Closed => Gone
  }

  predicate Inv(p: Peer) {
    && Follow(p.log) == StageOf(p.phase)
    && ((p.phase == AwaitingConnectionRequest || p.phase == Connected) ==> |p.key| == SESSION_KEY_BYTES)
  }

  // --- The order of serials ----------------------------------------------------------------------

  datatype MaybeSerial = Astray | Due(serial: Serial)

  function TallyOne(key: seq<Byte>, due: MaybeSerial, e: Event): MaybeSerial {
    if due.Astray? || !e.Sent? then due
    else if !e.sealed then if e.message == e.payload then due else Astray
    else if key != [] && e.message == Sealed(key, due.serial, e.payload) then Due(Successor(due.serial))
    else Astray
  }

  /** The serial due after some events, if every message among them is its payload as it is or sealed under
      `key` with the serial that was due. */
  function Tally(key: seq<Byte>, due: MaybeSerial, events: seq<Event>): MaybeSerial {
    if events == [] then due
    else TallyOne(key, Tally(key, due, events[..|events| - 1]), events[|events| - 1])
  }

  lemma {:induction false} TallyAppend(key: seq<Byte>, due: MaybeSerial, a: seq<Event>, b: seq<Event>)
    ensures Tally(key, due, a + b) == Tally(key, Tally(key, due, a), b)
    decreases |b|
  {
    hide TallyOne;
    if b == [] {
      assert a + b == a;
    } else {
      var k := |b| - 1;
      assert (a + b)[..|a + b| - 1] == a + b[..k];
      TallyAppend(key, due, a, b[..k]);
    }
  }

  // --- One connection later ----------------------------------------------------------------------

  /** `q` is a later state of `p`. */
  predicate Extends(p: Peer, q: Peer) {
    && Rank(p.phase) <= Rank(q.phase)
    && p.log <= q.log
    && (p.phase == Closed ==> q.log == p.log)
    && (p.phase != AwaitingPublicKey ==>
         q.key == p.key && Tally(p.key, Due(p.next), q.log[|p.log|..]) == Due(q.next))
  }

  predicate Leads(p: Peer, q: Peer) { Inv(p) ==> Inv(q) && Extends(p, q) }

  lemma Same(p: Peer, q: Peer)
    requires q == p.(expected := q.expected)
    ensures Leads(p, q)
  {
    assert q.log[|p.log|..] == [];
  }

  lemma Then(p: Peer, q: Peer, r: Peer)
    requires Leads(p, q) && Leads(q, r)
    ensures Leads(p, r)
  {
    hide Inv;
    if Inv(p) {
      assert r.log[|p.log|..] == q.log[|p.log|..] + r.log[|q.log|..];
      TallyAppend(p.key, Due(p.next), q.log[|p.log|..], r.log[|q.log|..]);
    }
  }

  lemma FollowOne(log: seq<Event>, e: Event)
    ensures Follow(log + [e]) == After(Follow(log), e)
  {
    assert (log + [e])[..|log|] == log;
  }

  lemma TallySingle(key: seq<Byte>, due: MaybeSerial, e: Event)
    ensures Tally(key, due, [e]) == TallyOne(key, due, e)
  {
    assert [e][..0] == [];
  }

  lemma TallySilent(key: seq<Byte>, due: MaybeSerial, events: seq<Event>)
    requires forall i | 0 <= i < |events| :: !events[i].Sent?
    ensures Tally(key, due, events) == due
  {
  }

  // --- Sends, closes, callbacks ------------------------------------------------------------------

  lemma SendLeads(p: Peer, payload: Payload, encrypt: bool)
    ensures Leads(p, Send(p, payload, encrypt))
  {
    hide Sealed, Follow, Tally, Successor;
    var q := Send(p, payload, encrypt);
    if p.phase == Closed {
      Same(p, q);
    } else {
      var e := q.log[|p.log|];
      assert q.log == p.log + [e] && q.log[|p.log|..] == [e];
      FollowOne(p.log, e);
      TallySingle(p.key, Due(p.next), e);
    }
  }

  /** Nothing moves a closed connection. */
  lemma {:induction false} ClosedInert(p: Peer, acts: seq<Act>)
    requires p.phase == Closed
    ensures React(p, acts) == p
    decreases |acts|
  {
    if acts != [] {
      assert Do(p, acts[0]) == p;
      ClosedInert(p, acts[1..]);
    }
  }

  /** A close appends exactly the end of the story, whatever the game does when told. */
  lemma CloseIs(p: Peer, onLeave: seq<Act>)
    ensures p.phase == Closed ==> Close(p, onLeave) == p
    ensures p.phase == Connected ==> Close(p, onLeave) == p.(phase := Closed, log := p.log + [Left, Released])
    ensures p.phase != Closed && p.phase != Connected ==>
              Close(p, onLeave) == p.(phase := Closed, log := p.log + [Released])
  {
    if p.phase == Connected {
      ClosedInert(Logged(p.(phase := Closed), Left), onLeave);
      assert p.log + [Left] + [Released] == p.log + [Left, Released];
    }
  }

  lemma CloseLeads(p: Peer, onLeave: seq<Act>)
    ensures Leads(p, Close(p, onLeave)) && Close(p, onLeave).phase == Closed
  {
    hide Close, Follow, Tally;
    var q := Close(p, onLeave);
    CloseIs(p, onLeave);
    if p.phase == Closed {
      Same(p, q);
    } else {
      FollowOne(p.log, Left);
      FollowOne(p.log + [Left], Released);
      FollowOne(p.log, Released);
      assert p.log + [Left, Released] == p.log + [Left] + [Released];
      TallySilent(p.key, Due(p.next), q.log[|p.log|..]);
    }
  }

  lemma {:induction false} ReactLeads(p: Peer, acts: seq<Act>)
    ensures Leads(p, React(p, acts))
    decreases |acts|
  {
    hide Leads, Send, Close;
    if acts == [] {
      Same(p, p);
    } else {
      var q := Do(p, acts[0]);
      if acts[0].DoSend? {
        SendLeads(p, acts[0].payload, acts[0].encrypt);
      } else {
        CloseLeads(p, acts[0].onLeave);
      }
      ReactLeads(q, acts[1..]);
      Then(p, q, React(p, acts));
    }
  }

  // --- Handlers ----------------------------------------------------------------------------------

  lemma PublicKeyLeads(p: Peer, message: seq<Byte>, c: Choice)
    requires message != [] && p.phase == AwaitingPublicKey
    ensures Leads(p, OnPublicKey(p, message, c))
  {
    hide Send, Close, SessionKey, KeyMessage, Follow, Tally;
    var blob := Wire.ArrayAt(message, 1).result;
    if blob.Ok? {
      var key := Rsa.ParsedKey(blob.value);
      Peers.ParsedKeyBound(blob.value);
      if key.Err? {
        CloseLeads(p, c.onLeave);
      } else if !TooShort(key.value) {
        KeySent(p, KeyMessage(key.value, c), SessionKey(c));
      }
    }
  }

  lemma KeySent(p: Peer, payload: Payload, key: seq<Byte>)
    requires p.phase == AwaitingPublicKey && |key| == SESSION_KEY_BYTES
    ensures Leads(p, Send(p.(key := key), payload, false).(phase := AwaitingConnectionRequest))
  {
    hide Follow, Tally;
    FollowOne(p.log, Sent(payload, false, payload));
  }

  lemma JoinLeads(p: Peer, a: Payload, b: Payload)
    requires p.phase == AwaitingConnectionRequest
    ensures Leads(p, Logged(Send(Send(p, a, false).(phase := Connected), b, false), Joined))
  {
    hide Follow, Tally;
    var x, y := Sent(a, false, a), Sent(b, false, b);
    var q := Logged(Send(Send(p, a, false).(phase := Connected), b, false), Joined);
    assert q.log == p.log + [x] + [y] + [Joined];
    FollowOne(p.log, x);
    FollowOne(p.log + [x], y);
    FollowOne(p.log + [x] + [y], Joined);
    assert q.log[|p.log|..] == [x] + [y] + [Joined];
    TallySingle(p.key, Due(p.next), x);
    TallySingle(p.key, Due(p.next), y);
    TallySingle(p.key, Due(p.next), Joined);
    TallyAppend(p.key, Due(p.next), [x], [y]);
    TallyAppend(p.key, Due(p.next), [x] + [y], [Joined]);
  }

  lemma RequestLeads(cfg: Config, p: Peer, message: seq<Byte>, c: Choice)
    requires message != [] && p.phase == AwaitingConnectionRequest
    ensures Leads(p, OnConnectionRequest(cfg, p, message, c))
  {
    hide Leads, Send, Close, React, RequestVersion, Welcome, DetectorOff;
    var q := OnConnectionRequest(cfg, p, message, c);
    var version := RequestVersion(message);
    if version.Err? {
      Same(p, p);
    } else if version.value != cfg.version {
      var r := Send(p, [VERSION_MISMATCH], false);
      SendLeads(p, [VERSION_MISMATCH], false);
      CloseLeads(r, c.onLeave);
      Then(p, r, q);
    } else {
      var r := Logged(Send(Send(p, Welcome(cfg), false).(phase := Connected), DetectorOff(), false), Joined);
      JoinLeads(p, Welcome(cfg), DetectorOff());
      ReactLeads(r, c.onJoin);
      Then(p, r, q);
    }
  }

  lemma CallLeads(p: Peer, e: Event)
    requires p.phase == Connected && IsCall(e)
    ensures Leads(p, Logged(p, e))
  {
    hide Follow, Tally;
    FollowOne(p.log, e);
    assert Logged(p, e).log[|p.log|..] == [e];
    TallySilent(p.key, Due(p.next), [e]);
  }

  lemma HandleLeads(cfg: Config, p: Peer, message: seq<Byte>, c: Choice)
    ensures Leads(p, Handle(cfg, p, message, c))
  {
    hide Leads, React, OnPublicKey, OnConnectionRequest, CallOf;
    Same(p, p);
    if message != [] {
      if message[0] == PUBLIC_KEY {
        if p.phase == AwaitingPublicKey { PublicKeyLeads(p, message, c); }
      } else if message[0] == CONNECTION_REQUEST {
        if p.phase == AwaitingConnectionRequest { RequestLeads(cfg, p, message, c); }
      } else if p.phase == Connected && CallOf(message).Call? {
        CallIsCall(message);
        CallLeads(p, CallOf(message).event);
        ReactLeads(Logged(p, CallOf(message).event), c.onCall);
        Then(p, Logged(p, CallOf(message).event), Handle(cfg, p, message, c));
      }
    }
  }

  lemma CallIsCall(message: seq<Byte>)
    ensures CallOf(message).Call? ==> IsCall(CallOf(message).event)
  {
  }

  lemma ProcessLeads(cfg: Config, p: Peer, message: seq<Byte>, c: Choice)
    ensures Leads(p, Process(cfg, p, message, c))
  {
    hide Leads, Handle, Entered, NextSerial;
    Same(p, p);
    var entry := Entered(p.key, p.expected, message);
    if entry.Plain? {
      HandleLeads(cfg, p, entry.message, c);
    } else if entry.Inner? {
      var q := p.(expected := NextSerial(p.key, p.expected, message));
      Same(p, q);
      HandleLeads(cfg, q, entry.payload, c);
      Then(p, q, Handle(cfg, q, entry.payload, c));
    }
  }

  lemma {:induction false} ServedLeads(cfg: Config, p: Peer, buffer: seq<Byte>, choices: seq<Choice>)
    ensures Leads(p, Served(cfg, p, buffer, choices).peer)
    decreases |buffer|
  {
    hide Leads, Process, Close, NextFrame;
    Same(p, p);
    NextFrameUsed(buffer);
    match NextFrame(buffer)
    case Stop(e) =>
      CloseLeads(p, First(choices).onLeave);
    case Frame(message, used) =>
      var q := Process(cfg, p, message, First(choices));
      ProcessLeads(cfg, p, message, First(choices));
      ServedLeads(cfg, q, buffer[used..], Others(choices));
      Then(p, q, Served(cfg, q, buffer[used..], Others(choices)).peer);
  }

  // --- Runs --------------------------------------------------------------------------------------

  lemma StepLeads(cfg: Config, l: Link, input: Input)
    ensures Leads(l.peer, Step(cfg, l, input).peer)
  {
    hide Leads, Served, Close, React;
    match input
    case Arrival(data, choices) => ServedLeads(cfg, l.peer, l.buffer + data, choices);
    case Failure(onLeave) => CloseLeads(l.peer, onLeave);
    case Elsewhere(acts) => ReactLeads(l.peer, acts);
  }

  /** Between any two moments of any run: phases move forward, the log only grows and not at all once closed, the
      session key set by the handshake stays, and every sealed message carries the next serial. */
  lemma {:induction false} RunLeads(cfg: Config, l: Link, inputs: seq<Input>)
    ensures Leads(l.peer, Run(cfg, l, inputs).peer)
  {
    hide Leads, Step;
    if inputs == [] {
      Same(l.peer, l.peer);
    } else {
      var k := |inputs| - 1;
      RunLeads(cfg, l, inputs[..k]);
      StepLeads(cfg, Run(cfg, l, inputs[..k]), inputs[k]);
      Then(l.peer, Run(cfg, l, inputs[..k]).peer, Run(cfg, l, inputs).peer);
    }
  }

  lemma StartInv(cfg: Config)
    ensures Inv(Start(cfg).peer)
  {
    FollowOne([], Sent(cfg.hint, false, cfg.hint));
  }

  // --- What the order of events means ------------------------------------------------------------

  function Count(log: seq<Event>, e: Event): nat {
    if log == [] then 0 else Count(log[..|log| - 1], e) + (if log[|log| - 1] == e then 1 else 0)
  }

  predicate Told(s: Stage) { s.Inside? || s.Leaving? }

  lemma {:induction false} CountsByStage(log: seq<Event>)
    requires Follow(log) != Broken
    ensures Count(log, Joined) <= 1 && Count(log, Released) == (if Follow(log).Gone? then 1 else 0)
    ensures Told(Follow(log)) ==> Count(log, Joined) == 1
    ensures Follow(log).Waiting? ==> Count(log, Joined) == 0
    ensures Count(log, Left) == if Follow(log).Leaving? || Follow(log).Gone? then Count(log, Joined) else 0
  {
    if log != [] { CountsByStage(log[..|log| - 1]); }
  }

  lemma {:induction false} PrefixUnbroken(log: seq<Event>, i: nat)
    requires i <= |log| && Follow(log) != Broken
    ensures Follow(log[..i]) != Broken
    decreases |log|
  {
    if i < |log| {
      var k := |log| - 1;
      PrefixUnbroken(log[..k], i);
      assert log[..k][..i] == log[..i];
    } else {
      assert log[..i] == log;
    }
  }

  lemma StageBefore(log: seq<Event>, i: nat)
    requires i < |log| && Follow(log) != Broken
    ensures Follow(log[..i]) != Broken && After(Follow(log[..i]), log[i]) != Broken
  {
    PrefixUnbroken(log, i);
    PrefixUnbroken(log, i + 1);
    assert log[..i + 1][..i] == log[..i];
  }

  /** Every run: joins at most once; leaves exactly as often as it joined once closed, never before; gives the id
      back exactly once when closed, never before. */
  lemma CallbacksPairUp(cfg: Config, inputs: seq<Input>)
    ensures var p := Run(cfg, Start(cfg), inputs).peer;
            && Count(p.log, Joined) <= 1
            && (p.phase == Connected ==> Count(p.log, Joined) == 1)
            && (Rank(p.phase) < Rank(Connected) ==> Count(p.log, Joined) == 0)
            && Count(p.log, Left) == (if p.phase == Closed then Count(p.log, Joined) else 0)
            && Count(p.log, Released) == (if p.phase == Closed then 1 else 0)
  {
    hide Run, Start, Follow, Count, Extends;
    StartInv(cfg);
    RunLeads(cfg, Start(cfg), inputs);
    CountsByStage(Run(cfg, Start(cfg), inputs).peer.log);
  }

  /** Every run: a call into the game or the core falls between the join and the leave; the leave precedes the
      release, and after the release nothing happens at all. */
  lemma CallbacksInOrder(cfg: Config, inputs: seq<Input>, i: nat)
    requires i < |Run(cfg, Start(cfg), inputs).peer.log|
    ensures var log := Run(cfg, Start(cfg), inputs).peer.log;
            && (IsCall(log[i]) ==> Count(log[..i], Joined) == 1 && Count(log[..i], Left) == 0)
            && (log[i] == Left ==> Count(log[..i], Joined) == 1)
            && (log[i] == Released ==> Count(log[..i], Left) == Count(log[..i], Joined))
            && Count(log[..i], Released) == 0
  {
    hide Run, Start, Follow, Count, Extends;
    var p := Run(cfg, Start(cfg), inputs).peer;
    StartInv(cfg);
    RunLeads(cfg, Start(cfg), inputs);
    StageBefore(p.log, i);
    CountsByStage(p.log[..i]);
  }

  /** Once the handshake has chosen a session key no run changes it, and a closed connection stays as it is. */
  lemma KeyAndPhaseStay(cfg: Config, before: seq<Input>, later: seq<Input>)
    ensures var p := Run(cfg, Start(cfg), before).peer; var q := Run(cfg, Start(cfg), before + later).peer;
            && Rank(p.phase) <= Rank(q.phase) && p.log <= q.log
            && (p.phase != AwaitingPublicKey ==> q.key == p.key)
            && (p.phase == AwaitingConnectionRequest || p.phase == Connected ==> |p.key| == SESSION_KEY_BYTES)
            && (p.phase == Closed ==> q.log == p.log)
  {
    hide Run, Start, Follow, Tally;
    StartInv(cfg);
    RunLeads(cfg, Start(cfg), before);
    RunLeads(cfg, Run(cfg, Start(cfg), before), later);
    RunAppend(cfg, Start(cfg), before, later);
  }

  lemma {:induction false} RunAppend(cfg: Config, l: Link, a: seq<Input>, b: seq<Input>)
    ensures Run(cfg, l, a + b) == Run(cfg, Run(cfg, l, a), b)
    decreases |b|
  {
    hide Step;
    if b == [] {
      assert a + b == a;
    } else {
      var k := |b| - 1;
      assert (a + b)[..|a + b| - 1] == a + b[..k];
      RunAppend(cfg, l, a, b[..k]);
    }
  }

  // --- What the client makes of the messages -----------------------------------------------------

  /** The messages that went out, in order. */
  function Messages(events: seq<Event>): seq<seq<Byte>> {
    if events == [] then []
    else (if events[0].Sent? then [events[0].message] else []) + Messages(events[1..])
  }

  /** The payloads among them that were to be kept secret. */
  function Secrets(events: seq<Event>): seq<seq<Byte>> {
    if events == [] then []
    else (if events[0].Sent? && events[0].sealed then [events[0].payload] else []) + Secrets(events[1..])
  }

  /** What goes out in the open does not look like an envelope. */
  predicate OpenIsPlain(events: seq<Event>) {
    forall i | 0 <= i < |events| :: events[i].Sent? && !events[i].sealed ==> !IsEncrypted(events[i].payload)
  }

  lemma {:induction false} AstrayStays(key: seq<Byte>, events: seq<Event>)
    ensures Tally(key, Astray, events) == Astray
  {
    if events != [] { AstrayStays(key, events[..|events| - 1]); }
  }

  lemma {:induction false} SecretsArrive(key: seq<Byte>, from: Serial, to: Serial, events: seq<Event>)
    requires Tally(key, Due(from), events) == Due(to) && OpenIsPlain(events)
    ensures Delivery(key, from, Messages(events)) == Delivered(Secrets(events), to)
    decreases |events|
  {
    hide Sealed, Successor, NextSerial, Entered, Tally;
    if events == [] {
      NoneTallied(key, Due(from));
    } else {
      var e, rest := events[0], events[1..];
      assert events == [e] + rest;
      TallyAppend(key, Due(from), [e], rest);
      TallySingle(key, Due(from), e);
      AstrayStays(key, rest);
      var next := TallyOne(key, Due(from), e).serial;
      SecretsArrive(key, next, to, rest);
      if e.Sent? {
        assert Messages(events)[1..] == Messages(rest);
        if e.sealed { SealedOpens(key, from, from, e.payload); } else { PlainPasses(key, from, e.payload); }
      } else {
        assert Messages(events) == Messages(rest);
      }
    }
  }

  lemma NoneTallied(key: seq<Byte>, due: MaybeSerial)
    ensures Tally(key, due, []) == due
  {
  }

  lemma PlainPasses(key: seq<Byte>, expected: Serial, m: seq<Byte>)
    requires !IsEncrypted(m)
    ensures !Entered(key, expected, m).Inner? && NextSerial(key, expected, m) == expected
  {
  }

  /** What happened between two states of a connection. */
  function Since(p: Peer, q: Peer): seq<Event> { if |p.log| <= |q.log| then q.log[|p.log|..] else [] }

  /** From the moment the key is set: a client holding it and expecting the serial due reads exactly the secret
      payloads, in order, through whatever else the server sends, and its serial keeps pace. */
  lemma ClientFollows(cfg: Config, before: seq<Input>, later: seq<Input>)
    requires Run(cfg, Start(cfg), before).peer.phase != AwaitingPublicKey
    requires OpenIsPlain(Since(Run(cfg, Start(cfg), before).peer, Run(cfg, Start(cfg), before + later).peer))
    ensures var p := Run(cfg, Start(cfg), before).peer; var q := Run(cfg, Start(cfg), before + later).peer;
            Delivery(p.key, p.next, Messages(Since(p, q))) == Delivered(Secrets(Since(p, q)), q.next)
  {
    hide Run, Start, Follow, Tally, Messages, Secrets, Delivery, OpenIsPlain;
    var p := Run(cfg, Start(cfg), before).peer;
    var q := Run(cfg, Start(cfg), before + later).peer;
    StartInv(cfg);
    RunLeads(cfg, Start(cfg), before);
    RunLeads(cfg, Run(cfg, Start(cfg), before), later);
    RunAppend(cfg, Start(cfg), before, later);
    SecretsArrive(p.key, p.next, q.next, Since(p, q));
  }
}
