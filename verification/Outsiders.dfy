/**
  What clients that are in no room believe: nothing.  Together with the exact pictures of those that are in one, this
  makes a client's picture tell exactly where it is.
 */
module Outsiders {
  import opened Hosts
  import opened Phases
  import Net
  import opened Game
  import opened RoomViews
  import opened GameInv
  import opened Entering
  import opened Opening
  import opened Handlers
  import opened GameRuns

  predicate IsOutside(s: State, c: HostId) { Net.IsConnected(s.net, c) && !InRoom(s, c) }

  /** Every connected client outside all rooms has an empty picture, but for those of `but`, yet to be told. */
  ghost predicate OutsidersKnow(s: State, but: set<HostId>) {
    forall c | IsOutside(s, c) && c !in but :: Known(s.net, c) == None
  }

  lemma ConnectedIsNotZero(n: Net.State, c: HostId)
    requires Net.Inv(n) && Net.IsConnected(n, c)
    ensures c != 0 && c in n.inbox
  {
    assert Net.InUse(n, c);
    assert !Net.WasIssued(n.next, 0);
  }

  /** Nobody outside moves in or is told anything. */
  lemma SameOutside(s: State, t: State, but: set<HostId>)
    requires OutsidersKnow(s, but)
    requires forall c | IsOutside(t, c) && c !in but :: IsOutside(s, c) && Known(t.net, c) == Known(s.net, c)
    ensures OutsidersKnow(t, but)
  {
  }

  // --- Messages ----------------------------------------------------------------------------------

  /** The message starts a picture. */
  predicate Starts(m: RoomMessage) { (m.CreateRoom? || m.EnterRoom?) && m.result == OK }

  /** The message ends it. */
  predicate Ends(m: RoomMessage) {
    m.KickedRoom? || (m.LeaveRoom? && m.result == OK) || (m.Answer? && m.result == OK && LeadsOut(m.rmi))
  }

  lemma SendOutside(s: State, h: HostId, m: RoomMessage, but: set<HostId>)
    requires Net.Inv(s.net) && OutsidersKnow(s, but) && (Starts(m) ==> InRoom(s, h))
    ensures OutsidersKnow(SendPlayer(s, h, m), if Ends(m) then but - {h} else but)
  {
    hide Net.Inv, Net.Send, Known;
    var t := SendPlayer(s, h, m);
    SendKeepsNet(s.net, h, m);
    forall c | IsOutside(t, c) && c !in (if Ends(m) then but - {h} else but) ensures Known(t.net, c) == None {
      ConnectedIsNotZero(s.net, c);
      SendKnown(s.net, h, Room(m), c);
      assert c != h ==> IsOutside(s, c) && c !in but;
      assert c == h && !Ends(m) ==> IsOutside(s, c) && c !in but;
    }
  }

  lemma SendRoomOutside(s: State, r: RoomRef, m: RoomMessage, but: set<HostId>)
    requires Net.Inv(s.net) && SeatsOwned(s) && IsListed(s, r) && OutsidersKnow(s, but)
    ensures OutsidersKnow(SendRoom(s, r, m, 0), but)
  {
    hide Net.Inv, SendSlots, Known;
    var t := SendRoom(s, r, m, 0);
    var slots := s.rooms[r].slots;
    SendSlotsShape(s.net, slots, m, 0);
    SeatsDistinct(s, r);
    forall c | IsOutside(t, c) && c !in but ensures IsOutside(s, c) && Known(t.net, c) == Known(s.net, c) {
      ConnectedIsNotZero(s.net, c);
      SendSlotsKnown(s.net, slots, m, 0, c);
      NotSeated(s, r, c);
    }
    SameOutside(s, t, but);
  }

  lemma NotSeated(s: State, r: RoomRef, c: HostId)
    requires SeatsOwned(s) && IsListed(s, r) && c != 0 && !InRoom(s, c)
    ensures c !in s.rooms[r].slots
  {
    var slots := s.rooms[r].slots;
    forall k | 0 <= k < SLOTS ensures slots[k] != c {
      assert slots[k] != 0 ==> Owns(s, slots[k], r, k);
    }
  }

  // --- Leaving -----------------------------------------------------------------------------------

  lemma KickedKnows(s: State, h: HostId)
    requires Net.Inv(s.net) && InRoom(s, h) && HasGroup(s, s.players[h].room.value) && Net.IsConnected(s.net, h)
    requires DistinctSeats(s.rooms[s.players[h].room.value].slots) && h != 0
    requires s.rooms[s.players[h].room.value].slots[s.players[h].slot] == h
    ensures Known(RemoveFromRoom(s, h, true).net, h) == None
  {
    hide Net.Inv, Known, Net.Send, Net.LeaveGroup, Net.DestroyGroup, HasGroup, Announce;
    var r := s.players[h].room.value;
    var f := Farewell(s, h, true);
    FarewellNet(s, h, true);
    FarewellTells(s, h);
    if PlayerCount(f.rooms[r].slots) == 0 {
      DestroyGroupKnown(f.net, f.rooms[r].group, h);
    } else {
      AnnounceKnown(f, r, h, s.players[h].slot, h);
    }
  }

  lemma FarewellTells(s: State, h: HostId)
    requires Net.Inv(s.net) && InRoom(s, h) && Net.IsConnected(s.net, h)
    ensures Known(Farewell(s, h, true).net, h) == None
  {
    hide Known;
    var g := s.rooms[s.players[h].room.value].group;
    Net.LeaveKeepsInv(s.net, g, h);
    SendKnown(Net.LeaveGroup(s.net, g, h), h, Room(KickedRoom), h);
  }

  /** Only the one that leaves is outside now and was not; if it was kicked it has been told. */
  lemma RemoveOutsiders(s: State, h: HostId, kicked: bool, but: set<HostId>)
    requires Consistent(s) && OutsidersKnow(s, but)
    ensures OutsidersKnow(RemoveFromRoom(s, h, kicked), if kicked then but else but + {h})
  {
    hide RemoveFromRoom, Net.Inv, Known, HasGroup, ViewsExact, RoomOk;
    if InRoom(s, h) {
      var t := RemoveFromRoom(s, h, kicked);
      var r := s.players[h].room.value;
      NobodyIsZero(s);
      assert Seated(s, h) && HasGroup(s, r);
      SeatsDistinct(s, r);
      RemoveTables(s, h, kicked);
      RemoveNet(s, h, kicked);
      forall c | IsOutside(t, c) && c !in (if kicked then but else but + {h}) ensures Known(t.net, c) == None {
        ConnectedIsNotZero(s.net, c);
        if c == h {
          KickedKnows(s, h);
        } else {
          assert IsOutside(s, c);
          NotSeated(s, r, c);
          RemoveKnownOutside(s, h, kicked, c);
        }
      }
    } else {
      RemoveOutside(s, h, kicked);
    }
  }

  // --- Entering ----------------------------------------------------------------------------------

  lemma SitOutside(s: State, h: HostId, r: RoomRef, slot: nat)
    requires Consistent(s) && MaySit(s, h, r, slot) && OutsidersKnow(s, {h})
    ensures OutsidersKnow(Welcome(Seat(s, h, r, slot), h, r, slot), {})
  {
    hide Welcome, Net.Inv, Known, ViewsExact, RoomOk, Occupants;
    var seated := Seat(s, h, r, slot);
    var t := Welcome(seated, h, r, slot);
    NobodyIsZero(s);
    SeatKeepsTables(s, h, r, slot);
    assert HasGroup(s, r) && Net.HasJoined(s.net, h);
    WelcomeNet(seated, h, r, slot);
    WelcomeShape(seated, h, r, slot);
    assert IsListed(seated, r);
    SeatsDistinct(seated, r);
    forall c | IsOutside(t, c) ensures Known(t.net, c) == None {
      assert c != h && IsOutside(s, c) && IsOutside(seated, c);
      ConnectedIsNotZero(s.net, c);
      NotSeated(seated, r, c);
      WelcomeKnown(seated, h, r, slot, c);
    }
  }

  lemma FollowOutside(s: State, h: HostId, e: Entry)
    requires Consistent(s) && GoodEntry(s, h, e) && !ReentersAlone(s, h, e) && OutsidersKnow(s, {})
    ensures OutsidersKnow(Follow(s, h, e), {})
  {
    hide RemoveFromRoom, Welcome, Seat, Net.Inv, Known, RoomOk, HasGroup, Tables, Groups, ViewsExact, OutsidersKnow;
    match e
    case Refused(code) => SendOutside(s, h, EnterRoom([], 0, ALL_OPEN, code), {});
    case Into(r) =>
      var out := RemoveFromRoom(s, h, false);
      JoinStarts(s, h, r);
      RemoveOutsiders(s, h, false, {});
      assert {} + {h} == {h};
      SitOutside(out, h, r, FreeSlot(out.rooms[r]).value);
  }

  lemma OpenOutside(s: State, h: HostId, max: nat, password: string)
    requires Consistent(s) && MayOpen(s, h) && Net.HasId(s.net) && OutsidersKnow(s, {h})
    ensures OutsidersKnow(SendPlayer(OpenRoom(s, h, max, password), h, CreateRoom(OK)), {})
  {
    hide Net.Inv, Known, HasGroup, ViewsExact, RoomOk, Net.Send, Net.JoinGroup, Net.CreateGroup, FreeNumber;
    var o := OpenRoom(s, h, max, password);
    assert Net.HasJoined(s.net, h);
    OpenNet(s, h, max, password);
    forall c | IsOutside(o, c) ensures IsOutside(s, c) && c != h && Known(o.net, c) == Known(s.net, c) {
      assert o.players[h].room == Some(|s.rooms|) && InRoom(o, h);
      OpenKnown(s, h, max, password, c);
    }
    SendOutside(o, h, CreateRoom(OK), {});
  }

  lemma CreateOutside(s: State, h: HostId, max: nat, password: string)
    requires Consistent(s) && h in s.players && Defined(s, h, MakeRoom(max, password)) && OutsidersKnow(s, {})
    requires s.players[h].channel == NO_CHANNEL || HasIdForRoom(s, h)
    ensures OutsidersKnow(CreateRoomFor(s, h, max, password), {})
  {
    hide RemoveFromRoom, OpenRoom, Net.Inv, Tables, Groups, ViewsExact, Net.HasId, Net.Send, OutsidersKnow, Alone;
    if s.players[h].channel == NO_CHANNEL {
      SendOutside(s, h, CreateRoom(FAILED), {});
    } else {
      RemoveKeeps(s, h, false);
      MayOpenNext(s, h);
      LeavingFrees(s, h);
      RemoveOutsiders(s, h, false, {});
      assert {} + {h} == {h};
      OpenOutside(RemoveFromRoom(s, h, false), h, max, password);
    }
  }

  // --- The other requests ------------------------------------------------------------------------

  lemma SetChannelOutside(s: State, h: HostId, channel: nat, but: set<HostId>)
    requires OutsidersKnow(s, but)
    ensures OutsidersKnow(SetChannel(s, h, channel), but)
  {
    hide Known;
    SameOutside(s, SetChannel(s, h, channel), but);
  }

  /** Out of the room, then told so. */
  lemma MoveOutside(s: State, h: HostId, channel: nat, m: RoomMessage)
    requires Consistent(s) && OutsidersKnow(s, {}) && Ends(m)
    ensures OutsidersKnow(SendPlayer(RemoveFromRoom(s, h, false), h, m), {})
    ensures OutsidersKnow(SendPlayer(SetChannel(RemoveFromRoom(s, h, false), h, channel), h, m), {})
  {
    hide RemoveFromRoom, SetChannel, Net.Inv, Tables, Groups, ViewsExact, OutsidersKnow, Net.Send;
    var out := RemoveFromRoom(s, h, false);
    RemoveKeeps(s, h, false);
    RemoveOutsiders(s, h, false, {});
    SetChannelOutside(out, h, channel, {} + {h});
    SameNet(out, h, channel);
    SendOutside(out, h, m, {} + {h});
    SendOutside(SetChannel(out, h, channel), h, m, {} + {h});
    assert {} + {h} - {h} == {};
  }

  lemma SameNet(s: State, h: HostId, channel: nat)
    ensures SetChannel(s, h, channel).net == s.net
  {
  }

  lemma RetouchOutside(s: State, r: RoomRef, room: RoomObject, m: RoomMessage)
    requires Consistent(s) && Retouches(s, r, room) && OutsidersKnow(s, {})
    ensures OutsidersKnow(Retouched(s, r, room), {}) && OutsidersKnow(SendRoom(Retouched(s, r, room), r, m, 0), {})
  {
    hide Net.Inv, Known, SendRoom, HasGroup, ViewsExact, RoomOk;
    var u := Retouched(s, r, room);
    RetouchKeepsTables(s, r, room);
    SameOutside(s, u, {});
    SendRoomOutside(u, r, m, {});
  }

  lemma {:induction false} SweepOutside(s: State, h: HostId, r: RoomRef, name: Option<string>, n: nat)
    requires Consistent(s) && r < |s.rooms| && n <= SLOTS && OutsidersKnow(s, {})
    ensures OutsidersKnow(GmSweep(s, h, r, name, n), {})
  {
    hide Consistent, OutsidersKnow, RemoveFromRoom;
    if n > 0 {
      var before := GmSweep(s, h, r, name, n - 1);
      SweepOutside(s, h, r, name, n - 1);
      GmSweepKeeps(s, h, r, name, n - 1);
      RemoveOutsiders(before, before.rooms[r].slots[n - 1], true, {});
    }
  }

  lemma KickOutside(s: State, h: HostId, slot: nat)
    requires Consistent(s) && OutsidersKnow(s, {})
    ensures OutsidersKnow(KickSlot(s, h, slot), {})
  {
    hide Consistent, OutsidersKnow, RemoveFromRoom;
    if IsMaster(s, h) && slot < SLOTS {
      RemoveOutsiders(s, s.rooms[s.players[h].room.value].slots[slot], true, {});
    }
  }

  lemma LobbyOutside(s: State, h: HostId, q: Request)
    requires Consistent(s) && h in s.players && IsLobbyRequest(q) && OutsidersKnow(s, {})
    ensures OutsidersKnow(Handle(s, h, q), {})
  {
    hide RemoveFromRoom, SetChannel, Net.Inv, Tables, Groups, ViewsExact, OutsidersKnow, SendPlayer;
    match q
    case EnterLobby => MoveOutside(s, h, NO_CHANNEL, Answer(ENTER_LOBBY, OK));
    case EnterChannel(channel) =>
      SetChannelOutside(s, h, channel, {});
      SameNet(s, h, channel);
      SendOutside(SetChannel(s, h, channel), h, Answer(ENTER_CHANNEL, OK), {});
      SendOutside(s, h, Answer(ENTER_CHANNEL, FAILED), {});
    case LeaveChannel => MoveOutside(s, h, NO_CHANNEL, Answer(LEAVE_CHANNEL, OK));
    case ChangeChannel(channel) =>
      MoveOutside(s, h, channel, Answer(CHANGE_CHANNEL, OK));
      SendOutside(s, h, Answer(CHANGE_CHANNEL, FAILED), {});
  }

  lemma SlotOutside(s: State, h: HostId, slot: nat, shut: bool, m: RoomMessage)
    requires Consistent(s) && InRoom(s, h) && slot < SLOTS && OutsidersKnow(s, {})
    requires shut ==> s.rooms[s.players[h].room.value].slots[slot] == 0
    ensures var r := s.players[h].room.value; OutsidersKnow(SendRoom(SetClosed(s, r, slot, shut), r, m, 0), {})
  {
    hide Net.Inv, Groups, ViewsExact, OutsidersKnow, SendRoom, SeatsOwned;
    var r := s.players[h].room.value;
    assert Seated(s, h) && RoomOk(s.rooms[r]);
    RetouchOutside(s, r, SetClosed(s, r, slot, shut).rooms[r], m);
  }

  lemma PlayingOutside(s: State, h: HostId, playing: bool, m: RoomMessage)
    requires Consistent(s) && InRoom(s, h) && OutsidersKnow(s, {})
    ensures var r := s.players[h].room.value;
            && OutsidersKnow(SetPlaying(s, r, playing), {})
            && OutsidersKnow(SendRoom(SetPlaying(s, r, playing), r, m, 0), {})
  {
    hide Net.Inv, Groups, ViewsExact, OutsidersKnow, SendRoom, SeatsOwned;
    var r := s.players[h].room.value;
    assert Seated(s, h) && RoomOk(s.rooms[r]);
    RetouchOutside(s, r, SetPlaying(s, r, playing).rooms[r], m);
  }

  lemma MasterOutside(s: State, h: HostId, q: Request)
    requires Consistent(s) && h in s.players && (IsMasterRequest(q) || q.GotoWaitRoom?) && OutsidersKnow(s, {})
    ensures OutsidersKnow(Handle(s, h, q), {})
  {
    hide Consistent, OutsidersKnow, SendRoom, KickSlot, SetClosed, SetPlaying;
    match q
    case Kick(slot) => KickOutside(s, h, slot);
    case ShutSlot(slot) =>
      if IsMaster(s, h) && slot < SLOTS && s.rooms[s.players[h].room.value].slots[slot] == 0 {
        SlotOutside(s, h, slot, true, CloseSlot(slot));
      }
    case UnshutSlot(slot) =>
      if IsMaster(s, h) && slot < SLOTS { SlotOutside(s, h, slot, false, OpenSlot(slot)); }
    case Start => if IsMaster(s, h) { PlayingOutside(s, h, true, StartGame); }
    case GotoWaitRoom => if InRoom(s, h) { PlayingOutside(s, h, false, StartGame); }
  }

  lemma EntryOutside(s: State, h: HostId, q: Request)
    requires Consistent(s) && h in s.players && (q.VisitRoom? || q.QuickJoin?) && SafeRequest(s, h, q)
    requires OutsidersKnow(s, {})
    ensures OutsidersKnow(Handle(s, h, q), {})
  {
    hide Net.Inv, Groups, ViewsExact, OutsidersKnow, Follow, EnterOutcome, QuickOutcome, Alone, RoomOk;
    match q
    case VisitRoom(number, password) =>
      EntriesAreGood(s, h, number, password);
      FollowOutside(s, h, EnterOutcome(s, s.players[h].channel, number, password));
    case QuickJoin =>
      EntriesAreGood(s, h, 0, "");
      FollowOutside(s, h, QuickOutcome(s, s.players[h].channel));
  }

  /** Every request that keeps the tables leaves everyone outside with an empty picture. */
  lemma HandleOutside(s: State, h: HostId, q: Request)
    requires Consistent(s) && h in s.players && Defined(s, h, q) && SafeRequest(s, h, q) && OutsidersKnow(s, {})
    ensures OutsidersKnow(Handle(s, h, q), {})
  {
    hide Consistent, OutsidersKnow, SendPlayer, RemoveFromRoom, GmSweep, CreateRoomFor, HasIdForRoom, HasNumber;
    if q.VisitRoom? || q.QuickJoin? { EntryOutside(s, h, q); }
    else if IsLobbyRequest(q) { LobbyOutside(s, h, q); }
    else if IsMasterRequest(q) || q.GotoWaitRoom? { MasterOutside(s, h, q); }
    else {
      match q
      case Logout => MoveOutside(s, h, 0, Answer(LOGOUT_OK, OK));
      case MakeRoom(max, password) => CreateOutside(s, h, max, password);
      case QuitRoom =>
        MoveOutside(s, h, 0, LeaveRoom(OK));
        ConsistentNet(s);
        SendOutside(s, h, LeaveRoom(FAILED), {});
      case GmCloseRoom => if InRoom(s, h) { SweepOutside(s, h, s.players[h].room.value, None, SLOTS); }
      case GmKick(name) => if InRoom(s, h) { SweepOutside(s, h, s.players[h].room.value, Some(name), SLOTS); }
    }
  }

  lemma ConsistentNet(s: State)
    requires Consistent(s)
    ensures Net.Inv(s.net)
  {
  }

  // --- Connections -------------------------------------------------------------------------------

  /** A connection that moves on: a new client has heard nothing, a closing one no longer counts. */
  lemma PhaseOutside(s: State, h: HostId, phase: Phase)
    requires Net.Inv(s.net) && h in s.net.peers && (!Net.HasJoined(s.net, h) || phase.Closed?)
    requires OutsidersKnow(s, {})
    ensures OutsidersKnow(s.(net := Net.SetPhase(s.net, h, phase)), {})
  {
    var t := s.(net := Net.SetPhase(s.net, h, phase));
    forall c | IsOutside(t, c) ensures Known(t.net, c) == None {
      assert c != h ==> IsOutside(s, c);
    }
  }

  lemma DepartedOutside(s: State, h: HostId)
    requires Inv(s) && h in s.net.peers && OutsidersKnow(s, {})
    ensures OutsidersKnow(Departed(s, h), {})
  {
    hide RemoveFromRoom, Net.Inv, Tables, Groups, Known, ViewsExact;
    var closing := s.(net := Net.SetPhase(s.net, h, Closed));
    PhaseOutside(s, h, Closed);
    PhaseKeeps(s, h, Closed);
    var t := Departed(s, h);
    if s.net.peers[h].Connected? && h in closing.players {
      var out := RemoveFromRoom(closing, h, false);
      RemoveOutsiders(closing, h, false, {});
      forall c | IsOutside(t, c) ensures Known(t.net, c) == None {
        assert c != h && IsOutside(out, c);
      }
    }
  }

  lemma CloseOutside(s: State, h: HostId)
    requires Inv(s) && OutsidersKnow(s, {})
    ensures OutsidersKnow(Close(s, h), {})
  {
    hide Departed, Net.PeerClosed, Net.Inv, Tables, Groups, Known, ViewsExact;
    if h in s.net.peers {
      var d := Departed(s, h);
      DepartedOutside(s, h);
      DepartedKeeps(s, h);
      CloseSteps(s, h);
      var t := Close(s, h);
      CloseKeeps(s, h);
      forall c | IsOutside(t, c) ensures IsOutside(d, c) && Known(t.net, c) == Known(d.net, c) {
        PeerClosedKnown(d.net, h, c);
      }
    }
  }

  lemma LogonOutside(s: State, h: HostId, user: Option<string>)
    requires Inv(s) && h in s.net.peers && s.net.peers[h].Connected? && OutsidersKnow(s, {})
    requires !(user.Some? && h in s.players && s.players[h].room.Some?)
    ensures OutsidersKnow(Logon(s, h, user), {})
  {
    hide Consistent, Close, SendPlayer, OutsidersKnow, OldDropped;
    ConsistentNet(s);
    match user
    case None => SendOutside(s, h, Answer(LOGON_ANSWER, FAILED), {});
    case Some(name) =>
      var t := OldDropped(s, h, name);
      OldDroppedKeeps(s, h, name);
      OldDroppedOutside(s, h, name);
      var u := t.(players := t.players[h := Player(name, NO_CHANNEL, None, 0)]);
      EnrolOutside(t, h, name);
      ConsistentNet(t);
      SendOutside(u, h, Answer(LOGON_ANSWER, OK), {});
      LogonIs(s, h, name);
  }

  lemma LogonIs(s: State, h: HostId, name: string)
    ensures var t := OldDropped(s, h, name);
            Logon(s, h, Some(name)) ==
            SendPlayer(t.(players := t.players[h := Player(name, NO_CHANNEL, None, 0)]), h, Answer(LOGON_ANSWER, OK))
  {
  }

  lemma EnrolOutside(s: State, h: HostId, name: string)
    requires OutsidersKnow(s, {}) && (h in s.players ==> s.players[h].room.None?)
    ensures OutsidersKnow(s.(players := s.players[h := Player(name, NO_CHANNEL, None, 0)]), {})
  {
    hide Known;
    SameOutside(s, s.(players := s.players[h := Player(name, NO_CHANNEL, None, 0)]), {});
  }

  lemma OldDroppedOutside(s: State, h: HostId, name: string)
    requires Inv(s) && OutsidersKnow(s, {})
    ensures OutsidersKnow(OldDropped(s, h, name), {})
  {
    hide Inv, Close, SendPlayer, OutsidersKnow;
    var others := OtherSessions(s, h, name);
    if others != {} {
      var first := Min(others);
      InvNet(s);
      SendKeepsInv(s, first, Answer(FORCED_CLOSE, 2));
      SendOutside(s, first, Answer(FORCED_CLOSE, 2), {});
      CloseOutside(SendPlayer(s, first, Answer(FORCED_CLOSE, 2)), first);
    }
  }

  lemma InvNet(s: State)
    requires Inv(s)
    ensures Net.Inv(s.net)
  {
  }

  lemma AcceptOutside(s: State)
    requires Inv(s) && OutsidersKnow(s, {})
    ensures OutsidersKnow(s.(net := Net.Accept(s.net)), {})
  {
    hide Net.Accept, Net.Inv, Known, Tables, Groups, ViewsExact;
    var t := s.(net := Net.Accept(s.net));
    AcceptShape(s.net);
    forall c | IsOutside(t, c) ensures IsOutside(s, c) && Known(t.net, c) == Known(s.net, c) {
      AcceptKnown(s.net, c);
    }
  }

  lemma AcceptKnown(n: Net.State, c: HostId)
    requires Net.Inv(n) && c != Net.AllocatedId(n)
    ensures Known(Net.Accept(n), c) == Known(n, c)
  {
    AcceptShape(n);
  }

  /** Every callback that keeps the invariant leaves everyone outside with an empty picture. */
  lemma StepOutside(s: State, step: Step)
    requires Inv(s) && DefinedStep(s, step) && SafeStep(s, step) && OutsidersKnow(s, {})
    ensures OutsidersKnow(Apply(s, step), {})
  {
    hide Inv, Consistent, OutsidersKnow, Handle, Logon, Close, Defined, SafeRequest, Net.Accept;
    InvNet(s);
    match step
    case Accepted => AcceptOutside(s);
    case PublicKey(h, valid) =>
      CloseOutside(s, h);
      if InPhase(s, h, AwaitingPublicKey) { PhaseOutside(s, h, AwaitingConnectionRequest); }
    case ConnectionRequest(h, matches) =>
      CloseOutside(s, h);
      if InPhase(s, h, AwaitingConnectionRequest) { PhaseOutside(s, h, Connected); }
    case Disconnected(h) => CloseOutside(s, h);
    case LogonRequest(h, user) => if InPhase(s, h, Connected) { LogonOutside(s, h, user); }
    case PlayerRequest(h, q) =>
      if InPhase(s, h, Connected) && h in s.players { InvConsistent(s); HandleOutside(s, h, q); }
  }

  lemma InvConsistent(s: State)
    requires Inv(s)
    ensures Consistent(s)
  {
  }
}
