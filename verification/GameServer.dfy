/**
  The game server object: the handlers carried out in place, slot by slot and message by message, each
  tied to the corresponding function of module Game.
 */
module GameServer {
  import opened Hosts
  import opened Phases
  import Net
  import NetServer
  import G = Game
  import Opening

  class Server {
    const net: NetServer.Server
    var players: map<HostId, G.Player>
    var rooms: seq<G.RoomObject>
    var listed: map<nat, G.RoomRef>
    var nextNumber: G.Number

    ghost function Model(): G.State
      reads this, net
    {
      G.State(net.Model(), players, rooms, listed, nextNumber)
    }

    constructor ()
      ensures Model() == G.INIT && fresh(net)
    {
      net := new NetServer.Server();
      players, rooms, listed, nextNumber := map[], [], map[], 1;
    }

    /** The player record refers to a room object (in the source a null or valid shared pointer). */
    predicate InRoom(h: HostId)
      reads this
    {
      && h in players && players[h].room.Some?
      && players[h].room.value < |rooms| && players[h].slot < G.SLOTS
    }

    // --- Reading a room --------------------------------------------------------------------------

    method PlayerCount(r: G.RoomRef) returns (count: nat)
      requires r < |rooms|
      ensures count == G.PlayerCount(rooms[r].slots)
    {
      var slots := rooms[r].slots;
      count := 0;
      for i := 0 to |slots|
        invariant count == G.PlayerCount(slots[..i])
      {
        assert slots[..i + 1][..i] == slots[..i];
        if slots[i] != 0 {
          count := count + 1;
        }
      }
      assert slots[..|slots|] == slots;
    }

    method FreeSlot(r: G.RoomRef) returns (slot: Option<nat>)
      requires r < |rooms|
      ensures slot == G.FreeSlot(rooms[r])
    {
      var room := rooms[r];
      var i := 0;
      while i < G.Capacity(room)
        invariant G.FreeSlot(room) == G.FreeSlotFrom(room, i)
      {
        if room.slots[i] == 0 && !room.closed[i] {
          return Some(i);
        }
        i := i + 1;
      }
      return None;
    }

    method FirstTaken(slots: seq<HostId>) returns (first: nat)
      ensures first == G.FirstTaken(slots)
    {
      first := 0;
      while first < |slots| && slots[first] == 0
        invariant first <= |slots|
        invariant forall k | 0 <= k < first :: slots[k] == 0
      {
        first := first + 1;
      }
      FirstTakenIs(slots, first);
    }

    lemma FirstTakenIs(slots: seq<HostId>, i: nat)
      requires i <= |slots| && (forall k | 0 <= k < i :: slots[k] == 0) && (i < |slots| ==> slots[i] != 0)
      ensures G.FirstTaken(slots) == i
    {
      if slots != [] && i < |slots| - 1 {
        FirstTakenIs(slots[..|slots| - 1], i);
      } else if slots != [] {
        FirstTakenIs(slots[..|slots| - 1], |slots| - 1);
      }
    }

    // --- Sending ---------------------------------------------------------------------------------

    method SendPlayer(h: HostId, m: RoomMessage)
      modifies net
      ensures Model() == G.SendPlayer(old(Model()), h, m)
    {
      net.SendTo(h, Room(m));
    }

    method SendRoom(r: G.RoomRef, m: RoomMessage, except: HostId)
      requires r < |rooms|
      modifies net
      ensures Model() == G.SendRoom(old(Model()), r, m, except)
    {
      var slots := rooms[r].slots;
      ghost var start := net.Model();
      for i := 0 to |slots|
        invariant net.Model() == G.SendSlots(start, slots[..i], m, except)
      {
        assert slots[..i + 1][..i] == slots[..i];
        if slots[i] != 0 && slots[i] != except {
          net.SendTo(slots[i], Room(m));
        }
      }
      assert slots[..|slots|] == slots;
    }

    // --- Leaving ---------------------------------------------------------------------------------

    method Detach(h: HostId)
      requires InRoom(h)
      modifies this, net
      ensures Model() == G.Detach(old(Model()), h)
    {
      var p := players[h];
      var room := rooms[p.room.value];
      rooms := rooms[p.room.value := room.(slots := room.slots[p.slot := 0])];
      players := players[h := p.(room := None)];
      net.LeaveP2PGroup(room.group, h);
    }

    method Disband(r: G.RoomRef)
      requires r < |rooms|
      modifies this, net
      ensures Model() == G.Disband(old(Model()), r)
    {
      net.DestroyP2PGroup(rooms[r].group);
      listed := listed - {rooms[r].number};
    }

    method Announce(r: G.RoomRef, h: HostId, slot: nat)
      requires r < |rooms|
      modifies this, net
      ensures Model() == G.Announce(old(Model()), r, h, slot)
    {
      SendRoom(r, RoomDelUser(Member(h, slot)), 0);
      if rooms[r].master == slot {
        var next := FirstTaken(rooms[r].slots);
        rooms := rooms[r := rooms[r].(master := next)];
        SendRoom(r, NewRoomMaster(next), 0);
      }
    }

    method RemoveFromRoom(h: HostId, kicked: bool)
      modifies this, net
      ensures Model() == G.RemoveFromRoom(old(Model()), h, kicked)
    {
      hide G.Detach, G.Disband, G.Announce;
      if !InRoom(h) {
        return;
      }
      var r := players[h].room.value;
      var slot := players[h].slot;
      Detach(h);
      if kicked {
        SendPlayer(h, KickedRoom);
      }
      var count := PlayerCount(r);
      if count == 0 {
        Disband(r);
        return;
      }
      Announce(r, h, slot);
    }

    // --- Entering --------------------------------------------------------------------------------

    method MembersOf(slots: seq<HostId>) returns (members: seq<Member>)
      ensures members == G.MembersOf(players, slots)
    {
      members := [];
      for i := 0 to |slots|
        invariant members == G.MembersOf(players, slots[..i])
      {
        assert slots[..i + 1][..i] == slots[..i];
        if slots[i] in players {
          members := members + [Member(slots[i], players[slots[i]].slot)];
        }
      }
      assert slots[..|slots|] == slots;
    }

    method Welcome(h: HostId, r: G.RoomRef, slot: nat)
      requires r < |rooms|
      modifies net
      ensures Model() == G.Welcome(old(Model()), h, r, slot)
    {
      var room := rooms[r];
      var members := MembersOf(room.slots);
      SendPlayer(h, EnterRoom(members, room.master, room.closed, G.OK));
      SendRoom(r, RoomAddUser(Member(h, slot)), h);
      net.JoinP2PGroup(room.group, h);
    }

    method JoinRoom(h: HostId, r: G.RoomRef)
      requires h in players && r < |rooms|
      modifies this, net
      ensures Model() == G.JoinRoom(old(Model()), h, r)
    {
      hide G.RemoveFromRoom, G.Welcome;
      RemoveFromRoom(h, false);
      var slot := FreeSlot(r);
      if slot.None? || h !in players {
        return;
      }
      rooms := rooms[r := rooms[r].(slots := rooms[r].slots[slot.value := h])];
      players := players[h := players[h].(room := Some(r), slot := slot.value)];
      Welcome(h, r, slot.value);
    }

    /** Skips numbers in use and 0; the 16-bit counter wraps.  The loop ends if a number is left. */
    method NextRoomNumber() returns (number: nat)
      requires G.HasNumber(listed.Keys)
      modifies this`nextNumber
      ensures number == G.FreeNumber(listed.Keys, old(nextNumber), 0)
      ensures nextNumber == (number + 1) % G.NUMBERS
    {
      hide G.FreeNumber, Opening.Turn, Opening.Candidate;
      ghost var start := nextNumber;
      ghost var k := 0;
      ghost var goal :| 0 < goal < G.NUMBERS && goal !in listed.Keys;
      ghost var turn := Opening.Turn(start, goal);
      Opening.TurnComes(start, goal);
      FirstCandidate(start);
      while nextNumber in listed || nextNumber == 0
        invariant k <= turn && nextNumber == Opening.Candidate(start, k)
        invariant G.FreeNumber(listed.Keys, start, 0) == G.FreeNumber(listed.Keys, start, k)
        decreases turn - k
      {
        Opening.CandidateNext(start, k);
        Opening.NumberNext(listed.Keys, start, k);
        nextNumber := (nextNumber + 1) % G.NUMBERS;
        k := k + 1;
      }
      FoundNumber(listed.Keys, start, k);
      number := nextNumber;
      nextNumber := (nextNumber + 1) % G.NUMBERS;
    }

    lemma FirstCandidate(n: nat)
      requires n < G.NUMBERS
      ensures Opening.Candidate(n, 0) == n
    {
    }

    lemma FoundNumber(used: set<nat>, n: nat, k: nat)
      requires k < G.NUMBERS && Opening.Candidate(n, k) !in used && Opening.Candidate(n, k) != 0
      ensures G.FreeNumber(used, n, k) == Opening.Candidate(n, k)
    {
    }

    method OpenRoom(h: HostId, max: nat, password: string)
      requires h in players && G.HasNumber(listed.Keys)
      modifies this, net
      ensures Model() == G.OpenRoom(old(Model()), h, max, password)
    {
      hide G.FreeNumber;
      var number := NextRoomNumber();
      var group := net.CreateP2PGroup();
      var r := |rooms|;
      var seats := G.NO_SEATS[0 := h];
      rooms := rooms +
        [G.RoomData(number, players[h].channel, G.ClampMax(max), password, seats, G.ALL_OPEN, 0, group, false)];
      listed := listed[number := r];
      players := players[h := players[h].(room := Some(r), slot := 0)];
      net.JoinP2PGroup(group, h);
    }

    method CreateRoom(h: HostId, max: nat, password: string)
      requires h in players && G.Defined(Model(), h, G.MakeRoom(max, password))
      modifies this, net
      ensures Model() == G.CreateRoomFor(old(Model()), h, max, password)
    {
      hide G.RemoveFromRoom, G.OpenRoom;
      if players[h].channel == G.NO_CHANNEL {
        SendPlayer(h, RoomMessage.CreateRoom(G.FAILED));
        return;
      }
      RemoveFromRoom(h, false);
      if h in players {
        OpenRoom(h, max, password);
        SendPlayer(h, RoomMessage.CreateRoom(G.OK));
      }
    }

    method Follow(h: HostId, e: G.Entry)
      requires h in players && (e.Into? ==> e.room < |rooms|)
      modifies this, net
      ensures Model() == G.Follow(old(Model()), h, e)
    {
      hide G.JoinRoom;
      match e
      case Into(r) => JoinRoom(h, r);
      case Refused(code) => SendPlayer(h, EnterRoom([], 0, G.ALL_OPEN, code));
    }

    method EnterRoomNumbered(h: HostId, number: nat, password: string)
      requires h in players
      modifies this, net
      ensures Model() ==
              G.Follow(old(Model()), h, G.EnterOutcome(old(Model()), old(players)[h].channel, number, password))
    {
      hide G.Follow;
      if number !in listed || listed[number] >= |rooms| || rooms[listed[number]].channel != players[h].channel {
        Follow(h, G.Refused(G.FAILED));
        return;
      }
      var r := listed[number];
      if rooms[r].playing {
        Follow(h, G.Refused(G.PLAYING));
        return;
      }
      if rooms[r].password != "" && rooms[r].password != password {
        Follow(h, G.Refused(G.WRONG_PASSWORD));
        return;
      }
      var slot := FreeSlot(r);
      if slot.None? {
        Follow(h, G.Refused(G.FULL));
        return;
      }
      Follow(h, G.Into(r));
    }

    method QuickJoin(h: HostId)
      requires h in players
      modifies this, net
      ensures Model() == G.Follow(old(Model()), h, G.QuickOutcome(old(Model()), old(players)[h].channel))
    {
      hide G.Follow;
      var channel := players[h].channel;
      var order := Ascending(listed.Keys);
      ghost var s := Model();
      for i := 0 to |order|
        invariant Model() == s
        invariant forall k | 0 <= k < i :: !G.OpenToAll(s, channel, order[k])
      {
        var r := listed[order[i]];
        if r < |rooms| && rooms[r].channel == channel && !rooms[r].playing && rooms[r].password == "" {
          var slot := FreeSlot(r);
          if slot.Some? {
            QuickFinds(s, channel, i);
            Follow(h, G.Into(r));
            return;
          }
        }
      }
      assert forall number | number in s.listed :: number in order;
      Follow(h, G.Refused(G.FAILED));
    }

    /** The first fitting number in iteration order is the least one. */
    lemma QuickFinds(s: G.State, channel: nat, i: nat)
      requires i < |Ascending(s.listed.Keys)| && G.OpenToAll(s, channel, Ascending(s.listed.Keys)[i])
      requires forall k | 0 <= k < i :: !G.OpenToAll(s, channel, Ascending(s.listed.Keys)[k])
      ensures G.QuickOutcome(s, channel) == G.Into(s.listed[Ascending(s.listed.Keys)[i]])
    {
      var order := Ascending(s.listed.Keys);
      var fits := set number | number in s.listed && G.OpenToAll(s, channel, number);
      assert order[i] in fits;
      var m := Min(fits);
      assert m in order;
      var j :| 0 <= j < |order| && order[j] == m;
      if i < j { AscendingIncreases(s.listed.Keys, i, j); }
    }

    // --- Requests of a logged-in player ------------------------------------------------------------

    method SetChannel(h: HostId, channel: nat)
      requires h in players
      modifies this
      ensures Model() == G.SetChannel(old(Model()), h, channel)
    {
      players := players[h := players[h].(channel := channel)];
    }

    /** `enter_lobby`, `leave_channel` and the accepted half of `change_channel` */
    method MoveTo(h: HostId, channel: nat, answer: RoomMessage)
      requires h in players
      modifies this, net
      ensures Model() == G.SendPlayer(G.SetChannel(G.RemoveFromRoom(old(Model()), h, false), h, channel), h, answer)
    {
      hide G.RemoveFromRoom;
      RemoveFromRoom(h, false);
      if h in players {
        SetChannel(h, channel);
      }
      SendPlayer(h, answer);
    }

    predicate IsMaster(h: HostId)
      reads this
    {
      InRoom(h) && rooms[players[h].room.value].master == players[h].slot
    }

    method Kick(h: HostId, slot: nat)
      modifies this, net
      ensures Model() == G.KickSlot(old(Model()), h, slot)
    {
      hide G.RemoveFromRoom;
      if !IsMaster(h) || slot >= G.SLOTS || slot == players[h].slot {
        return;
      }
      var target := rooms[players[h].room.value].slots[slot];
      if target in players {
        RemoveFromRoom(target, true);
      }
    }

    method SetSlotClosed(r: G.RoomRef, slot: nat, shut: bool)
      requires r < |rooms| && slot < G.SLOTS
      modifies this, net
      ensures var m := if shut then CloseSlot(slot) else OpenSlot(slot);
              Model() == G.SendRoom(G.SetClosed(old(Model()), r, slot, shut), r, m, 0)
    {
      rooms := rooms[r := rooms[r].(closed := rooms[r].closed[slot := shut])];
      SendRoom(r, if shut then CloseSlot(slot) else OpenSlot(slot), 0);
    }

    method SetPlaying(r: G.RoomRef, playing: bool)
      requires r < |rooms|
      modifies this
      ensures Model() == G.SetPlaying(old(Model()), r, playing)
    {
      rooms := rooms[r := rooms[r].(playing := playing)];
    }

    /** `gm_close_room` (no name) and `gm_kick`: the slots are read as the sweep goes on. */
    method GmSweep(h: HostId, r: G.RoomRef, name: Option<string>)
      requires r < |rooms| && G.SweepDefined(Model(), h, name)
      modifies this, net
      ensures Model() == G.GmSweep(old(Model()), h, r, name, G.SLOTS)
    {
      hide G.RemoveFromRoom;
      ghost var start := Model();
      for i := 0 to G.SLOTS
        invariant r < |rooms|
        invariant Model() == G.GmSweep(start, h, r, name, i)
      {
        var target := rooms[r].slots[i];
        if target in players && (if name.None? then target != h else players[target].name == name.value) {
          RemoveFromRoom(target, true);
        }
      }
    }

    lemma DefinedMeans(s: G.State, h: HostId, q: G.Request)
      requires h in s.players && G.Defined(s, h, q)
      ensures q.GmKick? ==> G.SweepDefined(s, h, Some(q.name))
    {
    }

    /** Dispatch of a request from a logged-in player. */
    method Handle(h: HostId, q: G.Request)
      requires h in players && G.Defined(Model(), h, q)
      modifies this, net
      ensures Model() == G.Handle(old(Model()), h, q)
    {
      hide G.RemoveFromRoom, G.Follow, G.CreateRoomFor, G.GmSweep, G.KickSlot, G.SendRoom, G.SendPlayer,
        G.EnterOutcome, G.QuickOutcome, G.SetChannel, G.SetClosed, G.Defined;
      DefinedMeans(Model(), h, q);
      match q
      case Logout =>
        RemoveFromRoom(h, false);
        SendPlayer(h, Answer(G.LOGOUT_OK, G.OK));
      case EnterLobby => MoveTo(h, G.NO_CHANNEL, Answer(G.ENTER_LOBBY, G.OK));
      case EnterChannel(channel) =>
        if channel >= G.CHANNELS {
          SendPlayer(h, Answer(G.ENTER_CHANNEL, G.FAILED));
        } else {
          SetChannel(h, channel);
          SendPlayer(h, Answer(G.ENTER_CHANNEL, G.OK));
        }
      case LeaveChannel => MoveTo(h, G.NO_CHANNEL, Answer(G.LEAVE_CHANNEL, G.OK));
      case ChangeChannel(channel) =>
        if channel >= G.CHANNELS {
          SendPlayer(h, Answer(G.CHANGE_CHANNEL, G.FAILED));
        } else {
          MoveTo(h, channel, Answer(G.CHANGE_CHANNEL, G.OK));
        }
      case MakeRoom(max, password) => CreateRoom(h, max, password);
      case VisitRoom(number, password) => EnterRoomNumbered(h, number, password);
      case QuickJoin => QuickJoin(h);
      case QuitRoom =>
        if players[h].room.None? {
          SendPlayer(h, LeaveRoom(G.FAILED));
        } else {
          RemoveFromRoom(h, false);
          SendPlayer(h, LeaveRoom(G.OK));
        }
      case Kick(slot) => Kick(h, slot);
      case ShutSlot(slot) =>
        if IsMaster(h) && slot < G.SLOTS && rooms[players[h].room.value].slots[slot] == 0 {
          SetSlotClosed(players[h].room.value, slot, true);
        }
      case UnshutSlot(slot) =>
        if IsMaster(h) && slot < G.SLOTS {
          SetSlotClosed(players[h].room.value, slot, false);
        }
      case Start =>
        if IsMaster(h) {
          var r := players[h].room.value;
          SetPlaying(r, true);
          SendRoom(r, StartGame, 0);
        }
      case GotoWaitRoom =>
        if InRoom(h) {
          SetPlaying(players[h].room.value, false);
        }
      case GmCloseRoom =>
        if InRoom(h) {
          GmSweep(h, players[h].room.value, None);
        }
      case GmKick(name) =>
        if InRoom(h) {
          GmSweep(h, players[h].room.value, Some(name));
        }
    }

    // --- Connections -----------------------------------------------------------------------------

    method OnClientLeave(h: HostId)
      modifies this, net
      ensures Model() == G.ClientLeave(old(Model()), h)
    {
      hide G.RemoveFromRoom;
      if h !in players {
        return;
      }
      RemoveFromRoom(h, false);
      players := players - {h};
    }

    /** `peer::close`, re-entering the game through `on_client_leave` before the peer is forgotten. */
    method ClosePeer(h: HostId)
      modifies this, net
      ensures Model() == G.Close(old(Model()), h)
    {
      hide G.ClientLeave;
      if h !in net.peers || net.peers[h].Closed? {
        return;
      }
      var wasConnected := net.peers[h].Connected?;
      net.EnterPhase(h, Closed);
      if wasConnected {
        OnClientLeave(h);
      }
      net.OnPeerClosed(h);
    }

    /** The login itself is decided by the account store; `user` is the account it accepted. */
    method Logon(h: HostId, user: Option<string>)
      modifies this, net
      ensures Model() == G.Logon(old(Model()), h, user)
    {
      hide G.Close, G.SendPlayer;
      if user.None? {
        SendPlayer(h, Answer(G.LOGON_ANSWER, G.FAILED));
        return;
      }
      DropOlderSession(h, user.value);
      players := players[h := G.Player(user.value, G.NO_CHANNEL, None, 0)];
      SendPlayer(h, Answer(G.LOGON_ANSWER, G.OK));
    }

    method DropOlderSession(h: HostId, user: string)
      modifies this, net
      ensures var s := old(Model()); var others := G.OtherSessions(s, h, user);
              Model() == if others == {} then s
                         else G.Close(G.SendPlayer(s, Min(others), Answer(G.FORCED_CLOSE, 2)), Min(others))
    {
      hide G.Close, G.SendPlayer;
      ghost var s := Model();
      var order := Ascending(players.Keys);
      for i := 0 to |order|
        invariant Model() == s
        invariant forall k | 0 <= k < i :: order[k] !in G.OtherSessions(s, h, user)
      {
        if players[order[i]].name == user && order[i] != h && order[i] in net.peers {
          FirstOther(s, h, user, i);
          SendPlayer(order[i], Answer(G.FORCED_CLOSE, 2));
          ClosePeer(order[i]);
          return;
        }
      }
      assert forall x | x in G.OtherSessions(s, h, user) :: x in order;
    }

    lemma FirstOther(s: G.State, h: HostId, user: string, i: nat)
      requires i < |Ascending(s.players.Keys)| && Ascending(s.players.Keys)[i] in G.OtherSessions(s, h, user)
      requires forall k | 0 <= k < i :: Ascending(s.players.Keys)[k] !in G.OtherSessions(s, h, user)
      ensures Min(G.OtherSessions(s, h, user)) == Ascending(s.players.Keys)[i]
    {
      var order := Ascending(s.players.Keys);
      var m := Min(G.OtherSessions(s, h, user));
      assert m in order;
      var j :| 0 <= j < |order| && order[j] == m;
      if i < j { AscendingIncreases(s.players.Keys, i, j); }
    }

    /** One event-loop callback. */
    method Callback(step: G.Step)
      requires G.DefinedStep(Model(), step)
      modifies this, net
      ensures Model() == G.Apply(old(Model()), step)
    {
      hide G.Close, G.Logon, G.Handle;
      match step
      case Accepted =>
        var id := net.AcceptPeer();
      case PublicKey(h, valid) =>
        if h in net.peers && net.peers[h] == AwaitingPublicKey {
          if valid { net.EnterPhase(h, AwaitingConnectionRequest); } else { ClosePeer(h); }
        }
      case ConnectionRequest(h, matches) =>
        if h in net.peers && net.peers[h] == AwaitingConnectionRequest {
          if matches { net.EnterPhase(h, Connected); } else { ClosePeer(h); }
        }
      case Disconnected(h) => ClosePeer(h);
      case LogonRequest(h, user) =>
        if h in net.peers && net.peers[h] == Connected { Logon(h, user); }
      case PlayerRequest(h, q) =>
        if h in net.peers && net.peers[h] == Connected && h in players { Handle(h, q); }
    }
  }
}
