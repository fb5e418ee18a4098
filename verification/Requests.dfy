/**
  What each request does, said without the handler: who is let in where, what starts and ends a race, who may change a
  room, where a player is afterwards, and what it is told.
 */
module Requests {
  import opened Hosts
  import opened Phases
  import Net
  import opened Game
  import opened RoomViews
  import opened GameInv
  import opened Entering
  import opened Opening
  import opened Handlers
  import opened GameRuns
  import opened GameTheorems
  import opened GameEffects
  import opened Outsiders

  // --- What a player is told ---------------------------------------------------------------------

  /** Nothing but the answer `m` to `h` has happened. */
  ghost predicate OnlyTold(s: State, t: State, h: HostId, m: RoomMessage) {
    && t.players == s.players && t.rooms == s.rooms && t.listed == s.listed && t.nextNumber == s.nextNumber
    && t.net == s.net.(inbox := t.net.inbox)
    && t.net.inbox == (if Net.IsConnected(s.net, h) && h in s.net.inbox
                       then s.net.inbox[h := s.net.inbox[h] + [Room(m)]] else s.net.inbox)
  }

  lemma AnswerOnlyTells(s: State, h: HostId, m: RoomMessage)
    ensures OnlyTold(s, SendPlayer(s, h, m), h, m)
  {
  }

  /** The last thing `h` was told is `m`. */
  predicate LastTold(t: State, h: HostId, m: RoomMessage) {
    h in t.net.inbox && t.net.inbox[h] != [] && t.net.inbox[h][|t.net.inbox[h]| - 1] == Room(m)
  }

  lemma AnswerComesLast(s: State, h: HostId, m: RoomMessage)
    requires Net.IsConnected(s.net, h) && h in s.net.inbox
    ensures LastTold(SendPlayer(s, h, m), h, m)
  {
  }

  lemma PlayerIsConnected(s: State, h: HostId)
    requires Inv(s) && h in s.players
    ensures Net.IsConnected(s.net, h) && h in s.net.inbox
  {
    hide Tables, Groups, ViewsExact;
    assert Net.HasJoined(s.net, h);
  }

  // --- Getting into a room -----------------------------------------------------------------------

  /** There is a place for one more: an open, empty slot below the maximum. */
  predicate HasPlace(room: RoomObject) {
    exists k | 0 <= k < 8 :: k < room.maxPlayers && room.slots[k] == 0 && !room.closed[k]
  }

  predicate InChannel(s: State, channel: nat, number: nat) {
    number in s.listed && s.listed[number] < |s.rooms| && s.rooms[s.listed[number]].channel == channel
  }

  /** A player in `channel` who names `number` and gives `password` may come in. */
  predicate MayVisit(s: State, channel: nat, number: nat, password: string) {
    && InChannel(s, channel, number)
    && var room := s.rooms[s.listed[number]];
       !room.playing && (room.password == "" || password == room.password) && HasPlace(room)
  }

  /** What it is told otherwise: the first thing that is wrong. */
  function WhyNot(s: State, channel: nat, number: nat, password: string): nat {
    if !InChannel(s, channel, number) then 1
    else
      var room := s.rooms[s.listed[number]];
      if room.playing then 13
      else if room.password != "" && password != room.password then 11
      else 12
  }

  lemma PlaceIsFree(room: RoomObject)
    requires RoomOk(room)
    ensures HasPlace(room) <==> FreeSlot(room).Some?
  {
    if FreeSlot(room).Some? {
      var k := FreeSlot(room).value;
      assert k < room.maxPlayers && room.slots[k] == 0 && !room.closed[k];
    }
  }

  lemma OutcomeIs(s: State, channel: nat, number: nat, password: string)
    requires ListAgrees(s) && RoomsOk(s)
    ensures var e := EnterOutcome(s, channel, number, password);
            if MayVisit(s, channel, number, password)
            then e == Into(s.listed[number]) else e == Refused(WhyNot(s, channel, number, password))
  {
    hide FreeSlot, HasPlace, RoomOk;
    if InChannel(s, channel, number) {
      assert ListedOk(s, number);
      PlaceIsFree(s.rooms[s.listed[number]]);
    }
  }

  /** A joined player is in the room it joined, even the one it was alone in. */
  lemma JoinedIsIn(s: State, h: HostId, r: RoomRef)
    requires Consistent(s) && GoodEntry(s, h, Into(r))
    ensures var t := JoinRoom(s, h, r); h in t.players && t.players[h].room == Some(r)
  {
    hide RemoveFromRoom, Welcome, FreeSlotFrom, RoomOk, HasGroup, Known, Net.Inv;
    var out := RemoveFromRoom(s, h, false);
    JoinStarts(s, h, r);
    var slot := FreeSlot(out.rooms[r]).value;
    SlotInRange(out.rooms[r]);
    WelcomeShape(Seat(out, h, r, slot), h, r, slot);
  }

  /** Entering a room by number.  Who may come in is in afterwards, in the lowest free slot, with every other record as
      it was (unless the player was alone in that very room, which is one of the exceptions); who may not is told the
      first reason, and nothing else happens. */
  lemma VisitEffect(s: State, h: HostId, number: nat, password: string, o: HostId)
    requires Consistent(s) && h in s.players
    ensures var t := Handle(s, h, VisitRoom(number, password)); var channel := s.players[h].channel;
            if MayVisit(s, channel, number, password)
            then && h in t.players && t.players[h].room == Some(s.listed[number])
                 && (!(Alone(s, h) && s.players[h].room == Some(s.listed[number])) ==>
                      && TookLowest(t, h, s.listed[number]) && t.players.Keys == s.players.Keys
                      && (o in s.players && o != h ==> t.players[o] == s.players[o]))
            else OnlyTold(s, t, h, EnterRoom([], 0, ALL_OPEN, WhyNot(s, channel, number, password)))
  {
    hide JoinRoom, Net.Inv, Groups, ViewsExact, EnterOutcome, TookLowest, OnlyTold, HasPlace, WhyNot, SeatsOwned,
      PlayersSeated, Net.Send;
    var channel := s.players[h].channel;
    OutcomeIs(s, channel, number, password);
    EntriesAreGood(s, h, number, password);
    if MayVisit(s, channel, number, password) {
      JoinedIsIn(s, h, s.listed[number]);
      if !ReentersAlone(s, h, Into(s.listed[number])) { JoinEffect(s, h, s.listed[number], o); }
    } else {
      AnswerOnlyTells(s, h, EnterRoom([], 0, ALL_OPEN, WhyNot(s, channel, number, password)));
    }
  }

  /** A room anybody in the channel may enter. */
  predicate OpenToAnyone(s: State, channel: nat, number: nat) {
    MayVisit(s, channel, number, "") && s.rooms[s.listed[number]].password == ""
  }

  lemma OpenIs(s: State, channel: nat, number: nat)
    requires ListAgrees(s) && RoomsOk(s)
    ensures number in s.listed && OpenToAll(s, channel, number) <==> OpenToAnyone(s, channel, number)
  {
    hide FreeSlot, HasPlace, RoomOk;
    if InChannel(s, channel, number) {
      assert ListedOk(s, number);
      PlaceIsFree(s.rooms[s.listed[number]]);
    }
  }

  /** Quick join: the lowest-numbered room of the channel anybody may enter; if there is none, only the answer. */
  lemma QuickEffect(s: State, h: HostId)
    requires Consistent(s) && h in s.players
    ensures var t := Handle(s, h, QuickJoin); var channel := s.players[h].channel;
            || (exists number ::
                  && OpenToAnyone(s, channel, number) && h in t.players
                  && t.players[h].room == Some(s.listed[number])
                  && forall other | OpenToAnyone(s, channel, other) :: number <= other)
            || (&& (forall number :: !OpenToAnyone(s, channel, number))
                && OnlyTold(s, t, h, EnterRoom([], 0, ALL_OPEN, 1)))
  {
    hide JoinRoom, Net.Inv, Groups, ViewsExact, OpenToAnyone, OpenToAll, OnlyTold, SeatsOwned, PlayersSeated, Net.Send,
      MayVisit, RoomOk;
    var channel := s.players[h].channel;
    var fits := set number | number in s.listed && OpenToAll(s, channel, number);
    forall number ensures number in fits <==> OpenToAnyone(s, channel, number) { OpenIs(s, channel, number); }
    EntriesAreGood(s, h, 0, "");
    if fits == {} {
      assert forall number :: !OpenToAnyone(s, channel, number) by {
        forall number ensures !OpenToAnyone(s, channel, number) { assert number !in fits; }
      }
      AnswerOnlyTells(s, h, EnterRoom([], 0, ALL_OPEN, FAILED));
    } else {
      JoinedIsIn(s, h, s.listed[Min(fits)]);
      assert OpenToAnyone(s, channel, Min(fits));
    }
  }

  // --- Starting and ending a race ----------------------------------------------------------------

  /** Who hears a message sent around a room: every connected occupant, once. */
  lemma {:induction false} SlotsHear(n: Net.State, slots: seq<HostId>, m: RoomMessage, c: HostId)
    requires DistinctSeats(slots) && c in n.inbox && c != 0
    ensures var t := SendSlots(n, slots, m, 0);
            && c in t.inbox
            && t.inbox[c] == if c in slots && Net.IsConnected(n, c) then n.inbox[c] + [Room(m)] else n.inbox[c]
  {
    if slots != [] {
      var k := |slots| - 1;
      SendSlotsShape(n, slots[..k], m, 0);
      SlotsHear(n, slots[..k], m, c);
      assert slots == slots[..k] + [slots[k]];
    }
  }

  /** Only the master starts the game: then the room is being played and every occupant is told; from anyone else
      nothing happens. */
  lemma StartEffect(s: State, h: HostId, c: HostId)
    requires Consistent(s) && h in s.players
    ensures var t := Handle(s, h, Start);
            if !IsMaster(s, h) then t == s
            else
              var r := s.players[h].room.value;
              && t.rooms == s.rooms[r := s.rooms[r].(playing := true)] && t.players == s.players && t.listed == s.listed
              && (Net.IsConnected(s.net, c) && c in s.rooms[r].slots && c != 0 ==> LastTold(t, c, StartGame))
  {
    hide SendSlots, Net.Inv, Groups, ViewsExact, RoomOk;
    if IsMaster(s, h) {
      var r := s.players[h].room.value;
      assert Seated(s, h);
      SeatsDistinct(s, r);
      if Net.IsConnected(s.net, c) && c in s.rooms[r].slots && c != 0 {
        ConnectedIsNotZero(s.net, c);
        SlotsHear(s.net, s.rooms[r].slots, StartGame, c);
      }
    }
  }

  /** A member that returns to the waiting room ends the race, and changes nothing else. */
  lemma WaitEffect(s: State, h: HostId)
    requires h in s.players
    ensures var t := Handle(s, h, GotoWaitRoom);
            if !InRoom(s, h) then t == s
            else var r := s.players[h].room.value; t == s.(rooms := s.rooms[r := s.rooms[r].(playing := false)])
  {
  }

  /** From the moment its master starts the game until a member returns to the waiting room, under any interleaving of
      callbacks, the room is being played and its occupants only become fewer. */
  lemma RaceFromStart(s: State, h: HostId, steps: seq<Step>)
    requires Consistent(s) && InPhase(s, h, Connected) && IsMaster(s, h)
    requires NobodyEndsRace(Apply(s, PlayerRequest(h, Start)), steps, s.players[h].room.value)
    ensures var t := RunFrom(Apply(s, PlayerRequest(h, Start)), steps); var r := s.players[h].room.value;
            r < |t.rooms| && t.rooms[r].playing && Occupants(t.rooms[r]) <= Occupants(s.rooms[r])
  {
    hide Consistent, RunFrom, NobodyEndsRace, Handle, Occupants;
    var r := s.players[h].room.value;
    StartEffect(s, h, h);
    var started := Apply(s, PlayerRequest(h, Start));
    SameSlotsSameOccupants(s.rooms[r], started.rooms[r]);
    RaceOnlyShrinks(started, steps, r);
  }

  lemma SameSlotsSameOccupants(a: RoomObject, b: RoomObject)
    requires a.slots == b.slots
    ensures Occupants(a) == Occupants(b)
  {
  }

  // --- Slots -------------------------------------------------------------------------------------

  /** Only the master closes a slot, and only an empty one; from then on it is closed. */
  lemma CloseSlotEffect(s: State, h: HostId, slot: nat)
    requires h in s.players
    ensures var t := Handle(s, h, ShutSlot(slot));
            if !IsMaster(s, h) || slot >= 8 || s.rooms[s.players[h].room.value].slots[slot] != 0 then t == s
            else
              var r := s.players[h].room.value;
              && t.rooms == s.rooms[r := s.rooms[r].(closed := s.rooms[r].closed[slot := true])]
              && t.players == s.players && t.listed == s.listed
  {
    hide SendSlots;
  }

  /** Only the master opens one. */
  lemma OpenSlotEffect(s: State, h: HostId, slot: nat)
    requires h in s.players
    ensures var t := Handle(s, h, UnshutSlot(slot));
            if !IsMaster(s, h) || slot >= 8 then t == s
            else
              var r := s.players[h].room.value;
              && t.rooms == s.rooms[r := s.rooms[r].(closed := s.rooms[r].closed[slot := false])]
              && t.players == s.players && t.listed == s.listed
  {
    hide SendSlots;
  }

  // --- Channels ----------------------------------------------------------------------------------

  /** Where a player is, and what it has just been told; nobody else has moved. */
  ghost predicate EndsUp(s: State, t: State, h: HostId, channel: nat, room: Option<RoomRef>, m: RoomMessage, o: HostId)
  {
    && h in s.players && h in t.players && t.players.Keys == s.players.Keys
    && t.players[h].channel == channel && t.players[h].room == room && t.players[h].name == s.players[h].name
    && LastTold(t, h, m)
    && (o in s.players && o != h ==> t.players[o] == s.players[o])
  }

  lemma MovedEndsUp(s: State, h: HostId, channel: nat, m: RoomMessage, o: HostId)
    requires Inv(s) && h in s.players
    ensures EndsUp(s, SendPlayer(SetChannel(RemoveFromRoom(s, h, false), h, channel), h, m), h, channel, None, m, o)
  {
    hide RemoveFromRoom, Net.Inv, Tables, Groups, ViewsExact, Net.Send;
    var out := RemoveFromRoom(s, h, false);
    var moved := SetChannel(out, h, channel);
    RemovedEndsUp(s, h, o);
    AnswerComesLast(moved, h, m);
  }

  lemma RemovedEndsUp(s: State, h: HostId, o: HostId)
    requires Inv(s) && h in s.players
    ensures var out := RemoveFromRoom(s, h, false);
            && h in out.players && out.players.Keys == s.players.Keys
            && out.players[h] == s.players[h].(room := None) && Net.IsConnected(out.net, h) && h in out.net.inbox
            && (o in s.players && o != h ==> out.players[o] == s.players[o])
  {
    hide RemoveFromRoom, Groups, ViewsExact;
    RemoveMoves(s, h, false, h);
    RemoveMoves(s, h, false, o);
    RemoveKeeps(s, h, false);
    PlayerIsConnected(s, h);
    SamePeersOut(s, h);
  }

  lemma SamePeersOut(s: State, h: HostId)
    ensures RemoveFromRoom(s, h, false).net.peers == s.net.peers
  {
  }

  /** Going to the lobby, and leaving a channel: out of the room and of the channel. */
  lemma LobbyEffect(s: State, h: HostId, o: HostId)
    requires Inv(s) && h in s.players
    ensures EndsUp(s, Handle(s, h, EnterLobby), h, 0xFF, None, Answer(0x582, 0), o)
    ensures EndsUp(s, Handle(s, h, LeaveChannel), h, 0xFF, None, Answer(0x584, 0), o)
  {
    hide RemoveFromRoom, SetChannel, Inv, EndsUp, SendPlayer;
    MovedEndsUp(s, h, NO_CHANNEL, Answer(ENTER_LOBBY, OK), o);
    MovedEndsUp(s, h, NO_CHANNEL, Answer(LEAVE_CHANNEL, OK), o);
  }

  /** Changing the channel leaves the room; a channel that does not exist is refused and nothing else happens. */
  lemma ChangeChannelEffect(s: State, h: HostId, channel: nat, o: HostId)
    requires Inv(s) && h in s.players
    ensures var t := Handle(s, h, ChangeChannel(channel));
            if channel < 6 then EndsUp(s, t, h, channel, None, Answer(0x585, 0), o)
            else OnlyTold(s, t, h, Answer(0x585, 1))
  {
    hide RemoveFromRoom, SetChannel, Inv, EndsUp, OnlyTold, SendPlayer;
    MovedEndsUp(s, h, channel, Answer(CHANGE_CHANNEL, OK), o);
    AnswerOnlyTells(s, h, Answer(CHANGE_CHANNEL, FAILED));
  }

  /** Entering a channel does not leave the room. */
  lemma EnterChannelEffect(s: State, h: HostId, channel: nat, o: HostId)
    requires Inv(s) && h in s.players
    ensures var t := Handle(s, h, EnterChannel(channel));
            if channel < 6 then EndsUp(s, t, h, channel, s.players[h].room, Answer(0x583, 0), o)
            else OnlyTold(s, t, h, Answer(0x583, 1))
  {
    hide Inv, OnlyTold, Net.Send;
    PlayerIsConnected(s, h);
    AnswerComesLast(SetChannel(s, h, channel), h, Answer(ENTER_CHANNEL, OK));
    AnswerOnlyTells(s, h, Answer(ENTER_CHANNEL, FAILED));
  }

  /** Leaving a room and logging out: out of the room, in the same channel.  Leaving from no room is refused. */
  lemma LeaveEffects(s: State, h: HostId, o: HostId)
    requires Inv(s) && h in s.players
    ensures EndsUp(s, Handle(s, h, Logout), h, s.players[h].channel, None, Answer(0x57A, 0), o)
    ensures var t := Handle(s, h, QuitRoom);
            if s.players[h].room.Some? then EndsUp(s, t, h, s.players[h].channel, None, LeaveRoom(0), o)
            else OnlyTold(s, t, h, LeaveRoom(1))
  {
    hide RemoveFromRoom, Inv, OnlyTold, Net.Send;
    RemovedEndsUp(s, h, o);
    AnswerComesLast(RemoveFromRoom(s, h, false), h, Answer(LOGOUT_OK, OK));
    AnswerComesLast(RemoveFromRoom(s, h, false), h, LeaveRoom(OK));
    AnswerOnlyTells(s, h, LeaveRoom(FAILED));
  }

  /** Without a channel no room is made. */
  lemma CreateRefused(s: State, h: HostId, max: nat, password: string)
    requires h in s.players && s.players[h].channel == 0xFF
    ensures OnlyTold(s, Handle(s, h, MakeRoom(max, password)), h, CreateRoom(1))
  {
    hide OnlyTold;
    AnswerOnlyTells(s, h, CreateRoom(FAILED));
  }

  // --- Connections -------------------------------------------------------------------------------

  /** A failed login is answered and nothing else happens. */
  lemma LoginRefused(s: State, h: HostId)
    requires InPhase(s, h, Connected)
    ensures OnlyTold(s, Apply(s, LogonRequest(h, None)), h, Answer(0x579, 1))
  {
    hide OnlyTold;
    AnswerOnlyTells(s, h, Answer(LOGON_ANSWER, FAILED));
  }

  /** A login gives the connection a fresh record under that name, in no channel and no room, ends the one other session
      of that name, if there is one, and touches no other record. */
  lemma LoginEffect(s: State, h: HostId, name: string, o: HostId)
    requires Inv(s) && InPhase(s, h, Connected)
    ensures var t := Apply(s, LogonRequest(h, Some(name)));
            && h in t.players && t.players[h] == Player(name, 0xFF, None, 0)
            && (o in t.players && o != h ==>
                 o in s.players && t.players[o] == s.players[o] && s.players[o].name != name)
            && (o in s.players && o != h && s.players[o].name != name ==> o in t.players)
            && (o in s.players && o != h && s.players[o].name == name ==> o !in t.net.peers)
            && LastTold(t, h, Answer(0x579, 0))
  {
    hide Close, Net.Inv, Tables, Groups, ViewsExact, Net.Send;
    var d := OldDropped(s, h, name);
    OldDroppedKeeps(s, h, name);
    DroppedExactly(s, h, name, o);
    var u := d.(players := d.players[h := Player(name, NO_CHANNEL, None, 0)]);
    LogonIs(s, h, name);
    AnswerComesLast(u, h, Answer(LOGON_ANSWER, OK));
  }

  lemma DroppedExactly(s: State, h: HostId, name: string, o: HostId)
    requires Inv(s) && InPhase(s, h, Connected)
    ensures var d := OldDropped(s, h, name);
            && h in d.net.inbox && (o in d.players ==> o in s.players && d.players[o] == s.players[o])
            && (o in s.players && s.players[o].name != name ==> o in d.players)
            && (o in s.players && o != h && s.players[o].name == name ==> o !in d.net.peers && o !in d.players)
  {
    hide Close, Tables, Groups, ViewsExact, Net.IdsConserved;
    var others := OtherSessions(s, h, name);
    OldDroppedKeeps(s, h, name);
    assert o in s.players ==> Net.HasJoined(s.net, o);
    if o in s.players && o != h && s.players[o].name == name { assert o in others; }
    if others != {} {
      var first := Min(others);
      SendKeepsInv(s, first, Answer(FORCED_CLOSE, 2));
      CloseKeeps(SendPlayer(s, first, Answer(FORCED_CLOSE, 2)), first);
      SameName(s, first, o);
    }
  }

  lemma SameName(s: State, a: HostId, b: HostId)
    requires Inv(s)
    ensures a in s.players && b in s.players && s.players[a].name == s.players[b].name ==> a == b
  {
    assert NamesDistinct(s);
  }

  /** The handshake as the game server sees it: a client comes in unconnected, moves on one phase at a time, and is gone
      if its key or its version is wrong; a phase out of turn changes nothing. */
  lemma ConnectionEffects(s: State, h: HostId)
    requires Inv(s)
    ensures var id := Net.AllocatedId(s.net);
            id !in s.net.peers && Apply(s, Accepted).net.peers == s.net.peers[id := AwaitingPublicKey]
    ensures InPhase(s, h, AwaitingPublicKey) ==>
              && Apply(s, PublicKey(h, true)).net.peers == s.net.peers[h := AwaitingConnectionRequest]
              && Apply(s, PublicKey(h, false)).net.peers == s.net.peers - {h}
    ensures InPhase(s, h, AwaitingConnectionRequest) ==>
              && Apply(s, ConnectionRequest(h, true)).net.peers == s.net.peers[h := Connected]
              && Apply(s, ConnectionRequest(h, false)).net.peers == s.net.peers - {h}
    ensures !InPhase(s, h, AwaitingPublicKey) ==> forall valid :: Apply(s, PublicKey(h, valid)) == s
    ensures !InPhase(s, h, AwaitingConnectionRequest) ==> forall ok :: Apply(s, ConnectionRequest(h, ok)) == s
    ensures Apply(s, Disconnected(h)).net.peers == s.net.peers - {h}
  {
    hide Close, Tables, Groups, ViewsExact, Net.IdsConserved;
    AcceptShape(s.net);
    CloseKeeps(s, h);
  }
}
