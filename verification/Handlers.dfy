/**
  Every handler of a logged-in player keeps the server consistent, with the exceptions stated exactly: a player who
  enters the room in which it is already alone, and a room opened when no id is left for its group.
 */
module Handlers {
  import opened Hosts
  import Net
  import opened Game
  import opened RoomViews
  import opened GameInv
  import opened Entering
  import opened Opening

  // --- Messages to one player --------------------------------------------------------------------

  /** The message does not change what a player in a room believes. */
  predicate Neutral(m: RoomMessage) {
    match m
    case CreateRoom(result) => result != OK
    case EnterRoom(_, _, _, result) => result != OK
    case LeaveRoom(result) => result != OK
    case StartGame => true
    case Answer(rmi, result) => !(result == OK && LeadsOut(rmi))
    case _ => false
  }

  lemma SendPlayerKeeps(s: State, h: HostId, m: RoomMessage)
    requires Consistent(s) && (Neutral(m) || !InRoom(s, h))
    ensures Consistent(SendPlayer(s, h, m))
  {
    hide Net.Send, Net.Inv;
    var t := SendPlayer(s, h, m);
    SendKeepsNet(s.net, h, m);
    SameTables(s, t);
    SameGroups(s, t);
    forall o | o in t.players ensures Net.HasJoined(t.net, o) { assert Net.HasJoined(s.net, o); }
    forall c | InRoom(t, c) && Net.IsConnected(t.net, c) ensures KnowsRoom(t, c) {
      assert InRoom(s, c) && KnowsRoom(s, c);
      SendKnown(s.net, h, Room(m), c);
    }
  }

  lemma SetChannelKeeps(s: State, h: HostId, channel: nat)
    requires Consistent(s)
    requires h in s.players ==> ChannelOk(s.players[h].(channel := channel))
    ensures Consistent(SetChannel(s, h, channel))
  {
    hide Net.Inv, Known;
    if h in s.players {
      var t := SetChannel(s, h, channel);
      forall o | o in t.players ensures Net.HasJoined(t.net, o) { assert Net.HasJoined(s.net, o); }
      assert forall o :: SameSeat(s, t, o);
      SameSeatsKeep(s, t);
    }
  }

  // --- Changes to one room -----------------------------------------------------------------------

  /** The room object is exchanged for one with the same seats, master, number and group. */
  ghost predicate Retouches(s: State, r: RoomRef, room: RoomObject) {
    && IsListed(s, r) && RoomOk(room)
    && room.slots == s.rooms[r].slots && room.master == s.rooms[r].master
    && room.number == s.rooms[r].number && room.group == s.rooms[r].group
  }

  function Retouched(s: State, r: RoomRef, room: RoomObject): State
    requires r < |s.rooms|
  {
    s.(rooms := s.rooms[r := room])
  }

  lemma RetouchKeepsTables(s: State, r: RoomRef, room: RoomObject)
    requires Tables(s) && Retouches(s, r, room)
    ensures Tables(Retouched(s, r, room))
  {
    var t := Retouched(s, r, room);
    forall number | number in t.listed ensures ListedOk(t, number) { assert ListedOk(s, number); }
    forall o | o in t.players && t.players[o].room.Some? ensures Seated(t, o) { assert Seated(s, o); }
    forall q: nat, i | IsListed(t, q) && 0 <= i < SLOTS && t.rooms[q].slots[i] != 0
      ensures Owns(t, t.rooms[q].slots[i], q, i)
    {
      assert IsListed(s, q) && Owns(s, s.rooms[q].slots[i], q, i);
    }
    forall q: nat | IsListed(t, q) ensures RoomOk(t.rooms[q]) { assert IsListed(s, q); }
  }

  lemma RetouchKeepsGroups(s: State, r: RoomRef, room: RoomObject)
    requires Groups(s) && Retouches(s, r, room)
    ensures Groups(Retouched(s, r, room))
  {
    var t := Retouched(s, r, room);
    forall q: nat | IsListed(t, q) ensures IsListed(s, q) && HasGroup(t, q) && t.rooms[q].group == s.rooms[q].group {
      assert IsListed(s, q) && HasGroup(s, q);
    }
    forall g | g in t.net.groups ensures exists q: nat :: IsListed(t, q) && t.rooms[q].group == g {
      var q: nat :| IsListed(s, q) && s.rooms[q].group == g;
      assert IsListed(t, q) && t.rooms[q].group == g;
    }
  }

  lemma RetouchKnown(s: State, r: RoomRef, room: RoomObject, m: RoomMessage, c: HostId)
    requires Net.Inv(s.net) && Tables(s) && Retouches(s, r, room) && 0 !in s.players
    requires InRoom(s, c) && KnowsRoom(s, c) && Net.IsConnected(s.net, c)
    requires ApplyToRoom(c, Some(ViewOf(s.rooms[r])), Room(m)) == Some(ViewOf(room))
    ensures Known(SendSlots(s.net, room.slots, m, 0), c) ==
            Some(ViewOf(Retouched(s, r, room).rooms[s.players[c].room.value]))
  {
    SeatsDistinct(s, r);
    SendSlotsKnown(s.net, room.slots, m, 0, c);
    OccupantsAre(s, r, c);
  }

  /** Exchanging the object and telling its occupants keeps everything, if the message says what changed. */
  lemma RetouchKeeps(s: State, r: RoomRef, room: RoomObject, m: RoomMessage)
    requires Consistent(s) && Retouches(s, r, room)
    requires forall c :: ApplyToRoom(c, Some(ViewOf(s.rooms[r])), Room(m)) == Some(ViewOf(room))
    ensures Consistent(SendRoom(Retouched(s, r, room), r, m, 0))
  {
    var u := Retouched(s, r, room);
    var t := SendRoom(u, r, m, 0);
    NobodyIsZero(s);
    RetouchKeepsTables(s, r, room);
    RetouchKeepsGroups(s, r, room);
    SendSlotsShape(u.net, room.slots, m, 0);
    SameTables(u, t);
    SameGroups(u, t);
    forall o | o in t.players ensures Net.HasJoined(t.net, o) { assert Net.HasJoined(s.net, o); }
    forall c | InRoom(t, c) && Net.IsConnected(t.net, c) ensures KnowsRoom(t, c) {
      assert InRoom(s, c) && KnowsRoom(s, c);
      RetouchKnown(s, r, room, m, c);
    }
  }

  /** A change nobody is told about keeps everything, if the clients do not track it. */
  lemma SilentRetouchKeeps(s: State, r: RoomRef, room: RoomObject)
    requires Consistent(s) && Retouches(s, r, room) && room.closed == s.rooms[r].closed
    ensures Consistent(Retouched(s, r, room))
  {
    hide HasGroup, RoomOk;
    var t := Retouched(s, r, room);
    RetouchKeepsTables(s, r, room);
    RetouchKeepsGroups(s, r, room);
    forall o | o in t.players ensures Net.HasJoined(t.net, o) { assert Net.HasJoined(s.net, o); }
    forall c | InRoom(t, c) && Net.IsConnected(t.net, c) ensures KnowsRoom(t, c) {
      assert InRoom(s, c) && KnowsRoom(s, c);
    }
  }

  // --- Leaving -----------------------------------------------------------------------------------

  /** After it left, a player is in no room; everybody else stays where it was. */
  lemma RemoveMoves(s: State, h: HostId, kicked: bool, o: HostId)
    requires PlayersSeated(s)
    ensures var t := RemoveFromRoom(s, h, kicked);
            && t.players.Keys == s.players.Keys
            && (o in s.players ==> t.players[o] == if o == h then s.players[o].(room := None) else s.players[o])
            && t.listed.Keys <= s.listed.Keys && |t.rooms| == |s.rooms|
  {
    if InRoom(s, h) {
      RemoveTables(s, h, kicked);
    } else if h in s.players {
      assert s.players[h].room.Some? ==> Seated(s, h);
    }
  }

  /** Leaving a room one is alone in frees an id and a number; nothing else about them changes. */
  lemma LeavingFrees(s: State, h: HostId)
    requires Consistent(s) && h in s.players
    ensures var t := RemoveFromRoom(s, h, false);
            && (Net.HasId(t.net) <==> Alone(s, h) || Net.HasId(s.net))
            && (HasNumber(t.listed.Keys) <==> Alone(s, h) || HasNumber(s.listed.Keys))
  {
    hide RemoveFromRoom, Net.Inv, ViewsExact, PlayerCount;
    if InRoom(s, h) {
      var r := s.players[h].room.value;
      assert Seated(s, h) && HasGroup(s, r);
      RemoveNet(s, h, false);
      RemoveTables(s, h, false);
      if Alone(s, h) {
        var number := s.rooms[r].number;
        assert ListedOk(s, number);
        assert number !in RemoveFromRoom(s, h, false).listed.Keys;
      }
    } else {
      RemoveOutside(s, h, false);
    }
  }

  lemma RemoveOutside(s: State, h: HostId, kicked: bool)
    requires !InRoom(s, h)
    ensures RemoveFromRoom(s, h, kicked) == s
  {
  }

  lemma KickKeeps(s: State, h: HostId, slot: nat)
    requires Consistent(s)
    ensures Consistent(KickSlot(s, h, slot))
  {
    if IsMaster(s, h) && slot < SLOTS {
      RemoveKeeps(s, s.rooms[s.players[h].room.value].slots[slot], true);
    }
  }

  lemma {:induction false} GmSweepKeeps(s: State, h: HostId, r: RoomRef, name: Option<string>, n: nat)
    requires Consistent(s) && r < |s.rooms| && n <= SLOTS
    ensures Consistent(GmSweep(s, h, r, name, n))
  {
    if n > 0 {
      var before := GmSweep(s, h, r, name, n - 1);
      GmSweepKeeps(s, h, r, name, n - 1);
      RemoveKeeps(before, before.rooms[r].slots[n - 1], true);
    }
  }

  // --- Entering ----------------------------------------------------------------------------------

  /** The one entry that goes wrong: into the room the player is alone in. */
  predicate ReentersAlone(s: State, h: HostId, e: Entry) {
    e.Into? && Alone(s, h) && s.players[h].room == Some(e.room)
  }

  ghost predicate GoodEntry(s: State, h: HostId, e: Entry) {
    && h in s.players
    && (e.Refused? ==> e.code != OK)
    && (e.Into? ==>
      IsListed(s, e.room) && FreeSlot(s.rooms[e.room]).Some? && s.rooms[e.room].channel == s.players[h].channel)
  }

  lemma EntriesAreGood(s: State, h: HostId, number: nat, password: string)
    requires Tables(s) && h in s.players
    ensures GoodEntry(s, h, EnterOutcome(s, s.players[h].channel, number, password))
    ensures GoodEntry(s, h, QuickOutcome(s, s.players[h].channel))
  {
    hide Net.Inv, RoomOk, Seated, Owns;
    assert number in s.listed ==> ListedOk(s, number);
    var fits := set n | n in s.listed && OpenToAll(s, s.players[h].channel, n);
    if fits != {} {
      assert Min(fits) in s.listed && OpenToAll(s, s.players[h].channel, Min(fits));
      assert ListedOk(s, Min(fits));
    }
  }

  /** Leaving a room never takes away its free slots. */
  lemma VacatedHasFree(room: RoomObject, i: nat)
    requires i < SLOTS && FreeSlot(room).Some?
    ensures FreeSlot(Vacated(room, i)).Some?
  {
    var k := FreeSlot(room).value;
    assert Vacated(room, i).slots[k] == 0 && !Vacated(room, i).closed[k] && k < Capacity(Vacated(room, i));
  }

  /** The state in which the second half of `join_room` starts. */
  lemma JoinStarts(s: State, h: HostId, r: RoomRef)
    requires Consistent(s) && GoodEntry(s, h, Into(r))
    ensures var out := RemoveFromRoom(s, h, false);
            && Consistent(out) && h in out.players && out.players[h].room.None? && out.players[h].channel < CHANNELS
            && FreeSlot(out.rooms[r]).Some?
            && (IsListed(out, r) <==> !ReentersAlone(s, h, Into(r)))
  {
    hide Net.Inv, HasGroup;
    var out := RemoveFromRoom(s, h, false);
    RemoveKeeps(s, h, false);
    RemoveMoves(s, h, false, h);
    assert RoomOk(s.rooms[r]);
    if InRoom(s, h) {
      RemoveTables(s, h, false);
      VacatedList(s, h, r);
      assert IsListed(out, r) <==> IsListed(VacatedTables(s, h), r);
      if r == s.players[h].room.value { VacatedHasFree(s.rooms[r], s.players[h].slot); }
    }
  }

  lemma FollowExact(s: State, h: HostId, e: Entry)
    requires Consistent(s) && GoodEntry(s, h, e)
    ensures Consistent(Follow(s, h, e)) <==> !ReentersAlone(s, h, e)
    ensures ReentersAlone(s, h, e) ==> !PlayersSeated(Follow(s, h, e))
  {
    hide HasGroup;
    match e
    case Refused(code) =>
      SendPlayerKeeps(s, h, EnterRoom([], 0, ALL_OPEN, code));
    case Into(r) =>
      var out := RemoveFromRoom(s, h, false);
      JoinStarts(s, h, r);
      var slot := FreeSlot(out.rooms[r]).value;
      if ReentersAlone(s, h, e) {
        var t := Follow(s, h, e);
        assert t.players[h].room == Some(r) && !IsListed(t, r);
        assert !Seated(t, h);
      } else {
        SitKeeps(out, h, r, slot);
      }
  }

  /** There is an id for the group of a new room of `h`'s. */
  predicate HasIdForRoom(s: State, h: HostId) { Alone(s, h) || Net.HasId(s.net) }

  lemma CreateExact(s: State, h: HostId, max: nat, password: string)
    requires Consistent(s) && h in s.players && Defined(s, h, MakeRoom(max, password))
    ensures Consistent(CreateRoomFor(s, h, max, password)) <==>
            s.players[h].channel == NO_CHANNEL || HasIdForRoom(s, h)
  {
    hide RemoveFromRoom, OpenRoom, Net.Inv, Tables, Groups, ViewsExact, Net.HasId, Net.Send;
    if s.players[h].channel == NO_CHANNEL {
      SendPlayerKeeps(s, h, CreateRoom(FAILED));
    } else {
      var out := RemoveFromRoom(s, h, false);
      RemoveKeeps(s, h, false);
      MayOpenNext(s, h);
      LeavingFrees(s, h);
      OpenExact(out, h, max, password);
    }
  }

  lemma MayOpenNext(s: State, h: HostId)
    requires Consistent(s) && h in s.players && s.players[h].channel != NO_CHANNEL
    requires HasNumber(RemoveFromRoom(s, h, false).listed.Keys)
    ensures MayOpen(RemoveFromRoom(s, h, false), h)
  {
    hide RemoveFromRoom, Net.Inv, ViewsExact;
    RemoveMoves(s, h, false, h);
    assert ChannelOk(s.players[h]);
  }

  // --- All requests ------------------------------------------------------------------------------

  /** The room a request leads into, if any. */
  function EntryOf(s: State, h: HostId, q: Request): Option<Entry>
    requires h in s.players
  {
    match q
    case VisitRoom(number, password) => Some(EnterOutcome(s, s.players[h].channel, number, password))
    case QuickJoin => Some(QuickOutcome(s, s.players[h].channel))
    case _ => None
  }

  predicate SafeRequest(s: State, h: HostId, q: Request)
    requires h in s.players
  {
    && (EntryOf(s, h, q).Some? ==> !ReentersAlone(s, h, EntryOf(s, h, q).value))
    && (q.MakeRoom? && s.players[h].channel != NO_CHANNEL ==> HasIdForRoom(s, h))
  }

  /** Leaving first, then changing the channel, then answering. */
  lemma MoveKeeps(s: State, h: HostId, channel: nat, m: RoomMessage)
    requires Consistent(s) && h in s.players && (channel < CHANNELS || channel == NO_CHANNEL)
    ensures Consistent(SendPlayer(SetChannel(RemoveFromRoom(s, h, false), h, channel), h, m))
  {
    RemoveKeeps(s, h, false);
    RemoveMoves(s, h, false, h);
    SetChannelKeeps(RemoveFromRoom(s, h, false), h, channel);
    SendPlayerKeeps(SetChannel(RemoveFromRoom(s, h, false), h, channel), h, m);
  }

  lemma SwitchKeeps(s: State, h: HostId, channel: nat, m: RoomMessage)
    requires Consistent(s) && h in s.players && channel < CHANNELS && Neutral(m)
    ensures Consistent(SendPlayer(SetChannel(s, h, channel), h, m))
  {
    SetChannelKeeps(s, h, channel);
    SendPlayerKeeps(SetChannel(s, h, channel), h, m);
  }

  lemma QuitKeeps(s: State, h: HostId, m: RoomMessage)
    requires Consistent(s) && h in s.players
    ensures Consistent(SendPlayer(RemoveFromRoom(s, h, false), h, m))
  {
    RemoveKeeps(s, h, false);
    RemoveMoves(s, h, false, h);
    SendPlayerKeeps(RemoveFromRoom(s, h, false), h, m);
  }

  lemma ShutKeeps(s: State, h: HostId, slot: nat)
    requires Consistent(s) && InRoom(s, h) && slot < SLOTS && s.rooms[s.players[h].room.value].slots[slot] == 0
    ensures var r := s.players[h].room.value; Consistent(SendRoom(SetClosed(s, r, slot, true), r, CloseSlot(slot), 0))
  {
    hide Net.Inv, KnowsRoom, Net.HasJoined, HasGroup, Owns;
    var r := s.players[h].room.value;
    assert Seated(s, h) && RoomOk(s.rooms[r]);
    RetouchKeeps(s, r, s.rooms[r].(closed := s.rooms[r].closed[slot := true]), CloseSlot(slot));
  }

  lemma UnshutKeeps(s: State, h: HostId, slot: nat)
    requires Consistent(s) && InRoom(s, h) && slot < SLOTS
    ensures var r := s.players[h].room.value; Consistent(SendRoom(SetClosed(s, r, slot, false), r, OpenSlot(slot), 0))
  {
    hide Net.Send, HasGroup, Owns;
    var r := s.players[h].room.value;
    assert Seated(s, h) && RoomOk(s.rooms[r]);
    RetouchKeeps(s, r, s.rooms[r].(closed := s.rooms[r].closed[slot := false]), OpenSlot(slot));
  }

  lemma StartKeeps(s: State, h: HostId)
    requires Consistent(s) && InRoom(s, h)
    ensures var r := s.players[h].room.value; Consistent(SendRoom(SetPlaying(s, r, true), r, StartGame, 0))
  {
    hide Net.Inv, Net.Send, KnowsRoom, Net.HasJoined, HasGroup, Owns;
    var r := s.players[h].room.value;
    assert Seated(s, h) && RoomOk(s.rooms[r]);
    RetouchKeeps(s, r, s.rooms[r].(playing := true), StartGame);
  }

  lemma WaitKeeps(s: State, h: HostId)
    requires Consistent(s) && InRoom(s, h)
    ensures Consistent(SetPlaying(s, s.players[h].room.value, false))
  {
    var r := s.players[h].room.value;
    assert Seated(s, h) && RoomOk(s.rooms[r]);
    SilentRetouchKeeps(s, r, s.rooms[r].(playing := false));
  }

  /** A request keeps the server consistent exactly when it is neither an entry into the room one is alone in nor the
      opening of a room without an id for its group. */
  lemma HandleExact(s: State, h: HostId, q: Request)
    requires Consistent(s) && h in s.players
    requires Defined(s, h, q)
    ensures Consistent(Handle(s, h, q)) <==> SafeRequest(s, h, q)
  {
    hide Consistent, Handle, SafeRequest;
    if q.VisitRoom? || q.QuickJoin? { EntryRequestExact(s, h, q); }
    else if IsLobbyRequest(q) { LobbyRequestKeeps(s, h, q); }
    else if IsMasterRequest(q) { MasterRequestKeeps(s, h, q); }
    else { RoomRequestKeeps(s, h, q); }
  }

  lemma EntryRequestExact(s: State, h: HostId, q: Request)
    requires Consistent(s) && h in s.players && (q.VisitRoom? || q.QuickJoin?)
    ensures Consistent(Handle(s, h, q)) <==> SafeRequest(s, h, q)
  {
    hide Consistent, Follow, EnterOutcome, QuickOutcome, GoodEntry, ReentersAlone;
    ConsistentTables(s);
    match q
    case VisitRoom(number, password) =>
      EntriesAreGood(s, h, number, password);
      FollowExact(s, h, EnterOutcome(s, s.players[h].channel, number, password));
    case QuickJoin =>
      EntriesAreGood(s, h, 0, "");
      FollowExact(s, h, QuickOutcome(s, s.players[h].channel));
  }

  lemma ConsistentTables(s: State)
    requires Consistent(s)
    ensures Tables(s)
  {
  }

  predicate IsLobbyRequest(q: Request) {
    q.EnterLobby? || q.EnterChannel? || q.LeaveChannel? || q.ChangeChannel?
  }

  lemma LobbyRequestKeeps(s: State, h: HostId, q: Request)
    requires Consistent(s) && h in s.players && IsLobbyRequest(q)
    ensures Consistent(Handle(s, h, q)) <==> SafeRequest(s, h, q)
  {
    hide Net.Inv, Net.HasJoined, Tables;
    match q
    case EnterLobby => MoveKeeps(s, h, NO_CHANNEL, Answer(ENTER_LOBBY, OK));
    case EnterChannel(channel) =>
      if channel < CHANNELS { SwitchKeeps(s, h, channel, Answer(ENTER_CHANNEL, OK)); }
      else { SendPlayerKeeps(s, h, Answer(ENTER_CHANNEL, FAILED)); }
    case LeaveChannel => MoveKeeps(s, h, NO_CHANNEL, Answer(LEAVE_CHANNEL, OK));
    case ChangeChannel(channel) =>
      if channel < CHANNELS { MoveKeeps(s, h, channel, Answer(CHANGE_CHANNEL, OK)); }
      else { SendPlayerKeeps(s, h, Answer(CHANGE_CHANNEL, FAILED)); }
  }

  predicate IsMasterRequest(q: Request) {
    q.Kick? || q.ShutSlot? || q.UnshutSlot? || q.Start?
  }

  lemma RoomRequestKeeps(s: State, h: HostId, q: Request)
    requires Consistent(s) && h in s.players
    requires !IsLobbyRequest(q) && !IsMasterRequest(q) && !q.VisitRoom? && !q.QuickJoin?
    requires Defined(s, h, q)
    ensures Consistent(Handle(s, h, q)) <==> SafeRequest(s, h, q)
  {
    match q
    case Logout => QuitKeeps(s, h, Answer(LOGOUT_OK, OK));
    case MakeRoom(max, password) => CreateExact(s, h, max, password);
    case QuitRoom =>
      if s.players[h].room.None? { SendPlayerKeeps(s, h, LeaveRoom(FAILED)); } else { QuitKeeps(s, h, LeaveRoom(OK)); }
    case GotoWaitRoom => if InRoom(s, h) { WaitKeeps(s, h); }
    case GmCloseRoom => if InRoom(s, h) { GmSweepKeeps(s, h, s.players[h].room.value, None, SLOTS); }
    case GmKick(name) => if InRoom(s, h) { GmSweepKeeps(s, h, s.players[h].room.value, Some(name), SLOTS); }
  }

  lemma MasterRequestKeeps(s: State, h: HostId, q: Request)
    requires Consistent(s) && h in s.players && IsMasterRequest(q)
    ensures Consistent(Handle(s, h, q)) <==> SafeRequest(s, h, q)
  {
    hide Consistent, KickSlot, SendRoom, SetClosed, SetPlaying;
    match q
    case Kick(slot) => KickKeeps(s, h, slot);
    case ShutSlot(slot) =>
      if IsMaster(s, h) && slot < SLOTS && s.rooms[s.players[h].room.value].slots[slot] == 0 { ShutKeeps(s, h, slot); }
    case UnshutSlot(slot) => if IsMaster(s, h) && slot < SLOTS { UnshutKeeps(s, h, slot); }
    case Start => if IsMaster(s, h) { StartKeeps(s, h); }
  }
}
