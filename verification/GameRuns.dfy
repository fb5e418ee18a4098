/**
  Whole runs of the game server.  Every event-loop callback keeps the invariant exactly when it is
  neither a second logon from inside a room, nor an entry into the room one is alone in, nor in need of
  an id when none is left; so every run without those keeps the player records, the seat tables, the
  room list, the P2P groups, the host ids and every client's picture in agreement.
 */
module GameRuns {
  import opened Hosts
  import opened Phases
  import Net
  import opened Game
  import opened RoomViews
  import opened GameInv
  import opened Opening
  import opened Handlers

  // --- Closing a connection ----------------------------------------------------------------------

  /** A host that is no player is in no P2P group. */
  lemma StrangerInNoGroup(s: State, h: HostId, g: HostId)
    requires Consistent(s) && h !in s.players && g in s.net.groups
    ensures h !in s.net.groups[g]
  {
    NobodyIsZero(s);
    var r: nat :| IsListed(s, r) && s.rooms[r].group == g;
    assert HasGroup(s, r);
    OccupantsAre(s, r, h);
  }

  lemma StrangerInNone(s: State, h: HostId)
    requires Consistent(s) && h !in s.players
    ensures !Net.InGroup(s.net, h)
  {
    hide Consistent;
    forall g | g in s.net.groups ensures h !in s.net.groups[g] { StrangerInNoGroup(s, h, g); }
  }

  lemma PhaseKeeps(s: State, h: HostId, phase: Phase)
    requires Consistent(s) && h in s.net.peers && (Net.HasJoined(s.net, h) ==> phase.Closed?)
    requires h in s.players ==> phase.Closed?
    ensures Consistent(s.(net := Net.SetPhase(s.net, h, phase)))
  {
    hide Net.Inv, Net.InGroup, HasGroup, RoomOk, Owns, Occupants;
    var t := s.(net := Net.SetPhase(s.net, h, phase));
    Net.PhaseExact(s.net, h, phase);
    if phase.Connected? { StrangerInNone(s, h); }
    SameTables(s, t);
    SameGroups(s, t);
    forall o | o in t.players ensures Net.HasJoined(t.net, o) { assert Net.HasJoined(s.net, o); }
    forall c | InRoom(t, c) && Net.IsConnected(t.net, c) ensures KnowsRoom(t, c) {
      assert InRoom(s, c) && Net.IsConnected(s.net, c) && KnowsRoom(s, c);
    }
  }

  /** Forgetting a player that is in no room. */
  lemma ForgetKeeps(s: State, h: HostId)
    requires Consistent(s) && (h in s.players ==> s.players[h].room.None?)
    ensures Consistent(s.(players := s.players - {h}))
  {
    var t := s.(players := s.players - {h});
    forall o | o in t.players ensures Net.HasJoined(t.net, o) { assert Net.HasJoined(s.net, o); }
    assert forall o :: SameSeat(s, t, o);
    SameSeatsKeep(s, t);
  }

  lemma StrangerLeaves(s: State, h: HostId)
    requires Consistent(s) && h in s.net.peers && h !in s.players
    ensures var n := Net.PeerClosed(s.net, h);
            Net.Inv(n) && n.peers == s.net.peers - {h} && n.groups == s.net.groups
  {
    forall g | g in s.net.groups ensures h !in s.net.groups[g] { StrangerInNoGroup(s, h, g); }
    ClosedUnchanged(s.net, h);
  }

  lemma ClosedUnchanged(n: Net.State, h: HostId)
    requires Net.Inv(n) && h in n.peers && forall g | g in n.groups :: h !in n.groups[g]
    ensures var c := Net.PeerClosed(n, h); Net.Inv(c) && c.peers == n.peers - {h} && c.groups == n.groups
  {
    Net.PeerClosedKeepsInv(n, h);
    Net.PeerClosedShape(n, h);
    assert forall g | g in n.groups :: n.groups[g] - {h} == n.groups[g];
  }

  lemma VanishKeeps(s: State, h: HostId)
    requires Consistent(s) && h in s.net.peers && h !in s.players
    ensures Consistent(s.(net := Net.PeerClosed(s.net, h)))
  {
    var t := s.(net := Net.PeerClosed(s.net, h));
    StrangerLeaves(s, h);
    SameTables(s, t);
    SameGroups(s, t);
    forall o | o in t.players ensures Net.HasJoined(t.net, o) { assert Net.HasJoined(s.net, o); }
    forall c | InRoom(t, c) && Net.IsConnected(t.net, c) ensures KnowsRoom(t, c) {
      assert InRoom(s, c) && Net.IsConnected(s.net, c) && KnowsRoom(s, c);
      PeerClosedKnown(s.net, h, c);
    }
  }

  lemma ClientLeaveKeeps(s: State, h: HostId)
    requires Consistent(s)
    ensures var t := ClientLeave(s, h);
            && Consistent(t) && t.net.peers == s.net.peers && t.players.Keys == s.players.Keys - {h}
            && forall o | o in t.players :: t.players[o] == s.players[o]
  {
    if h in s.players {
      RemoveKeeps(s, h, false);
      forall o | o in s.players
        ensures o in RemoveFromRoom(s, h, false).players
        ensures o != h ==> RemoveFromRoom(s, h, false).players[o] == s.players[o]
      {
        RemoveMoves(s, h, false, o);
      }
      RemoveMoves(s, h, false, h);
      ForgetKeeps(RemoveFromRoom(s, h, false), h);
    }
  }

  /** The state when `on_peer_closed` is reached. */
  function Departed(s: State, h: HostId): State {
    var closing := s.(net := Net.SetPhase(s.net, h, Closed));
    if h in s.net.peers && s.net.peers[h].Connected? then ClientLeave(closing, h) else closing
  }

  lemma DepartedKeeps(s: State, h: HostId)
    requires Inv(s) && h in s.net.peers
    ensures var t := Departed(s, h);
            && Consistent(t) && h in t.net.peers && t.net.peers == s.net.peers[h := Closed]
            && t.players.Keys == s.players.Keys - {h}
            && forall o | o in t.players :: t.players[o] == s.players[o]
  {
    PhaseKeeps(s, h, Closed);
    if s.net.peers[h].Connected? {
      ClientLeaveKeeps(s.(net := Net.SetPhase(s.net, h, Closed)), h);
    } else {
      assert h in s.players ==> Net.HasJoined(s.net, h);
    }
  }

  lemma CloseSteps(s: State, h: HostId)
    requires Inv(s) && h in s.net.peers
    ensures Close(s, h) == Departed(s, h).(net := Net.PeerClosed(Departed(s, h).net, h))
  {
  }

  /** `close` removes the client from its room, its groups, the player table and the peer table. */
  lemma CloseKeeps(s: State, h: HostId)
    requires Inv(s)
    ensures var t := Close(s, h);
            && Inv(t) && t.net.peers == s.net.peers - {h} && t.players.Keys == s.players.Keys - {h}
            && forall o | o in t.players :: t.players[o] == s.players[o]
  {
    if h in s.net.peers {
      var d := Departed(s, h);
      DepartedKeeps(s, h);
      CloseSteps(s, h);
      VanishKeeps(d, h);
      StrangerLeaves(d, h);
      NoneClosed(s, Close(s, h), h);
    } else {
      assert h in s.players ==> Net.HasJoined(s.net, h);
      assert s.net.peers - {h} == s.net.peers;
    }
  }

  lemma NoneClosed(s: State, t: State, h: HostId)
    requires Inv(s) && t.net.peers == s.net.peers[h := Closed] - {h}
    ensures t.net.peers == s.net.peers - {h} && forall o | o in t.net.peers :: !t.net.peers[o].Closed?
  {
    forall o | o in t.net.peers ensures !t.net.peers[o].Closed? { assert o in s.net.peers; }
  }

  // --- Logging on --------------------------------------------------------------------------------

  /** The state after an older session of the account was dropped. */
  function OldDropped(s: State, h: HostId, name: string): State {
    var others := OtherSessions(s, h, name);
    if others == {} then s else Close(SendPlayer(s, Min(others), Answer(FORCED_CLOSE, 2)), Min(others))
  }

  lemma SendKeepsInv(s: State, h: HostId, m: RoomMessage)
    requires Inv(s) && (Neutral(m) || !InRoom(s, h))
    ensures Inv(SendPlayer(s, h, m)) && SendPlayer(s, h, m).net.peers == s.net.peers
  {
    SendPlayerKeeps(s, h, m);
    SendKeepsNet(s.net, h, m);
  }

  /** One session per account: after the drop only `h` itself can still bear the name. */
  lemma OldDroppedKeeps(s: State, h: HostId, name: string)
    requires Inv(s) && h in s.net.peers && s.net.peers[h].Connected?
    ensures var t := OldDropped(s, h, name);
            && Inv(t) && h in t.net.peers && t.net.peers[h].Connected?
            && (h in t.players <==> h in s.players) && (h in s.players ==> t.players[h] == s.players[h])
            && forall o | o in t.players && t.players[o].name == name :: o == h
  {
    var others := OtherSessions(s, h, name);
    if others == {} {
      forall o | o in s.players && s.players[o].name == name ensures o == h {
        assert Net.HasJoined(s.net, o);
        assert o !in others;
      }
    } else {
      var first := Min(others);
      SendKeepsInv(s, first, Answer(FORCED_CLOSE, 2));
      CloseKeeps(SendPlayer(s, first, Answer(FORCED_CLOSE, 2)), first);
    }
  }

  /** A fresh record for a host that is in no room. */
  lemma EnrolKeeps(s: State, h: HostId, name: string)
    requires Inv(s) && h in s.net.peers && s.net.peers[h].Connected? && (h in s.players ==> s.players[h].room.None?)
    requires forall o | o in s.players && s.players[o].name == name :: o == h
    ensures Inv(s.(players := s.players[h := Player(name, NO_CHANNEL, None, 0)]))
  {
    hide Net.Inv, Occupants, ViewOf, HasGroup, RoomOk;
    var t := s.(players := s.players[h := Player(name, NO_CHANNEL, None, 0)]);
    forall o | o in t.players ensures Net.HasJoined(t.net, o) { assert o != h ==> Net.HasJoined(s.net, o); }
    assert forall o :: SameSeat(s, t, o);
    SameSeatsKeep(s, t);
  }

  /** A fresh record for a host that sits in a room leaves that seat without an owner. */
  lemma EnrolBreaks(s: State, h: HostId, name: string, m: RoomMessage)
    requires Inv(s) && h in s.players && s.players[h].room.Some?
    ensures !SeatsOwned(SendPlayer(s.(players := s.players[h := Player(name, NO_CHANNEL, None, 0)]), h, m))
  {
    NobodyIsZero(s);
    var t := SendPlayer(s.(players := s.players[h := Player(name, NO_CHANNEL, None, 0)]), h, m);
    assert Seated(s, h);
    var r := s.players[h].room.value;
    var i := s.players[h].slot;
    assert IsListed(t, r) && t.rooms[r].slots[i] == h && !Owns(t, h, r, i);
  }

  lemma LogonExact(s: State, h: HostId, user: Option<string>)
    requires Inv(s) && h in s.net.peers && s.net.peers[h].Connected?
    ensures Inv(Logon(s, h, user)) <==> !(user.Some? && h in s.players && s.players[h].room.Some?)
  {
    match user
    case None => SendKeepsInv(s, h, Answer(LOGON_ANSWER, FAILED));
    case Some(name) =>
      var t := OldDropped(s, h, name);
      OldDroppedKeeps(s, h, name);
      if h in s.players && s.players[h].room.Some? {
        EnrolBreaks(t, h, name, Answer(LOGON_ANSWER, OK));
      } else {
        EnrolKeeps(t, h, name);
        SendKeepsInv(t.(players := t.players[h := Player(name, NO_CHANNEL, None, 0)]), h, Answer(LOGON_ANSWER, OK));
      }
  }

  // --- Steps -------------------------------------------------------------------------------------

  /** The callbacks the tables do not survive: two handlers, and running out of ids. */
  predicate SafeStep(s: State, step: Step) {
    match step
    case LogonRequest(h, user) =>
      !(InPhase(s, h, Connected) && user.Some? && h in s.players && s.players[h].room.Some?)
    case PlayerRequest(h, q) => InPhase(s, h, Connected) && h in s.players ==> SafeRequest(s, h, q)
    case Accepted => Net.HasId(s.net)
    case _ => true
  }

  lemma AcceptedExact(s: State)
    requires Inv(s)
    ensures Inv(s.(net := Net.Accept(s.net))) <==> Net.HasId(s.net)
  {
    hide Tables, Groups, Known, Net.Accept, Net.IdsConserved, ViewsExact, PlayersJoined;
    Net.AcceptExact(s.net);
    if Net.HasId(s.net) { AcceptKeeps(s); }
  }

  lemma AcceptShape(n: Net.State)
    requires Net.Inv(n)
    ensures var id := Net.AllocatedId(n); var a := Net.Accept(n);
            && id !in n.peers && a.peers == n.peers[id := AwaitingPublicKey] && a.groups == n.groups
            && a.inbox == n.inbox[id := []]
  {
    Net.AllocateFresh(n);
  }

  lemma AcceptKeeps(s: State)
    requires Inv(s) && Net.HasId(s.net)
    ensures Inv(s.(net := Net.Accept(s.net)))
  {
    hide Net.Accept, Net.IdsConserved, HasGroup, RoomOk;
    var t := s.(net := Net.Accept(s.net));
    Net.AcceptExact(s.net);
    AcceptShape(s.net);
    SameTables(s, t);
    SameGroups(s, t);
    forall o | o in t.players ensures Net.HasJoined(t.net, o) { assert Net.HasJoined(s.net, o); }
    forall c | InRoom(t, c) && Net.IsConnected(t.net, c) ensures KnowsRoom(t, c) {
      assert InRoom(s, c) && Net.IsConnected(s.net, c) && KnowsRoom(s, c);
    }
  }

  lemma AdvanceKeeps(s: State, h: HostId, phase: Phase)
    requires Inv(s) && h in s.net.peers && !s.net.peers[h].Connected? && !phase.Closed?
    ensures Inv(s.(net := Net.SetPhase(s.net, h, phase)))
  {
    assert h in s.players ==> Net.HasJoined(s.net, h);
    PhaseKeeps(s, h, phase);
  }

  lemma PublicKeyKeeps(s: State, h: HostId, valid: bool)
    requires Inv(s)
    ensures Inv(Apply(s, PublicKey(h, valid)))
  {
    hide Inv, Close, Net.SetPhase;
    if InPhase(s, h, AwaitingPublicKey) {
      if valid { AdvanceKeeps(s, h, AwaitingConnectionRequest); } else { CloseKeeps(s, h); }
    }
  }

  lemma RequestKeeps(s: State, h: HostId, matches: bool)
    requires Inv(s)
    ensures Inv(Apply(s, ConnectionRequest(h, matches)))
  {
    hide Inv, Close, Net.SetPhase;
    if InPhase(s, h, AwaitingConnectionRequest) {
      if matches { AdvanceKeeps(s, h, Connected); } else { CloseKeeps(s, h); }
    }
  }

  lemma LogonStepExact(s: State, h: HostId, user: Option<string>)
    requires Inv(s)
    ensures Inv(Apply(s, LogonRequest(h, user))) <==> SafeStep(s, LogonRequest(h, user))
  {
    hide Inv, Logon;
    if InPhase(s, h, Connected) { LogonExact(s, h, user); }
  }

  lemma RequestStepExact(s: State, h: HostId, q: Request)
    requires Inv(s) && DefinedStep(s, PlayerRequest(h, q))
    ensures Inv(Apply(s, PlayerRequest(h, q))) <==> SafeStep(s, PlayerRequest(h, q))
  {
    hide Consistent, Handle, SafeRequest, Defined;
    if InPhase(s, h, Connected) && h in s.players {
      HandleExact(s, h, q);
      SamePeers(s, h, q);
    }
  }

  lemma SamePeers(s: State, h: HostId, q: Request)
    requires h in s.players
    ensures Handle(s, h, q).net.peers == s.net.peers
  {
  }

  /** Each callback that has an outcome keeps the invariant if and only if it is not one of those. */
  lemma StepExact(s: State, step: Step)
    requires Inv(s) && DefinedStep(s, step)
    ensures Inv(Apply(s, step)) <==> SafeStep(s, step)
  {
    hide Inv, DefinedStep, Apply, SafeStep;
    match step
    case Accepted => AcceptStepExact(s);
    case PublicKey(h, valid) => PublicKeyKeeps(s, h, valid); OtherStepsSafe(s, step);
    case ConnectionRequest(h, matches) => RequestKeeps(s, h, matches); OtherStepsSafe(s, step);
    case Disconnected(h) => DisconnectKeeps(s, h); OtherStepsSafe(s, step);
    case LogonRequest(h, user) => LogonStepExact(s, h, user);
    case PlayerRequest(h, q) => RequestStepExact(s, h, q);
  }

  lemma AcceptStepExact(s: State)
    requires Inv(s)
    ensures Inv(Apply(s, Accepted)) <==> SafeStep(s, Accepted)
  {
    hide Inv, Net.Accept;
    AcceptedExact(s);
  }

  lemma DisconnectKeeps(s: State, h: HostId)
    requires Inv(s)
    ensures Inv(Apply(s, Disconnected(h)))
  {
    hide Inv, Close;
    CloseKeeps(s, h);
  }

  lemma OtherStepsSafe(s: State, step: Step)
    requires !step.Accepted? && !step.LogonRequest? && !step.PlayerRequest?
    ensures SafeStep(s, step)
  {
  }
}
