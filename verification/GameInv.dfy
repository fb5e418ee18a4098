/**
  The invariant tying the four tables together, and the proof that leaving a room keeps it.
 */
module GameInv {
  import opened Hosts
  import opened Phases
  import Net
  import opened Game
  import opened RoomViews

  predicate IsListed(s: State, r: RoomRef) {
    r < |s.rooms| && s.rooms[r].number in s.listed && s.listed[s.rooms[r].number] == r
  }

  /** The player record points at a listed room whose slot holds the player. */
  predicate Seated(s: State, h: HostId) {
    InRoom(s, h) && IsListed(s, s.players[h].room.value)
    && s.rooms[s.players[h].room.value].slots[s.players[h].slot] == h
  }

  predicate Owns(s: State, h: HostId, r: RoomRef, i: nat) {
    h in s.players && s.players[h].room == Some(r) && s.players[h].slot == i
  }

  predicate RoomOk(room: RoomObject) {
    && 1 <= room.maxPlayers <= SLOTS
    && room.channel < CHANNELS
    && room.master < SLOTS && room.slots[room.master] != 0
    && forall i | 0 <= i < SLOTS && room.slots[i] != 0 :: i < room.maxPlayers && !room.closed[i]
  }

  predicate ListedOk(s: State, number: nat)
    requires number in s.listed
  {
    s.listed[number] < |s.rooms| && s.rooms[s.listed[number]].number == number && 0 < number < NUMBERS
  }

  // --- The clauses -------------------------------------------------------------------------------

  predicate ListAgrees(s: State) { forall number | number in s.listed :: ListedOk(s, number) }

  predicate PlayersSeated(s: State) { forall h | h in s.players && s.players[h].room.Some? :: Seated(s, h) }

  ghost predicate SeatsOwned(s: State) {
    forall r: nat, i | IsListed(s, r) && 0 <= i < SLOTS && s.rooms[r].slots[i] != 0 ::
      Owns(s, s.rooms[r].slots[i], r, i)
  }

  ghost predicate RoomsOk(s: State) { forall r: nat | IsListed(s, r) :: RoomOk(s.rooms[r]) }

  predicate NamesDistinct(s: State) {
    forall h, h' | h in s.players && h' in s.players && s.players[h].name == s.players[h'].name :: h == h'
  }

  predicate ChannelsOk(s: State) {
    forall h | h in s.players :: ChannelOk(s.players[h])
  }

  predicate ChannelOk(p: Player) {
    (p.channel < CHANNELS || p.channel == NO_CHANNEL) && (p.room.Some? ==> p.channel < CHANNELS)
  }

  predicate HasGroup(s: State, r: RoomRef)
    requires r < |s.rooms|
  {
    s.rooms[r].group in s.net.groups && s.net.groups[s.rooms[r].group] == Occupants(s.rooms[r])
  }

  ghost predicate GroupsMatch(s: State) { forall r: nat | IsListed(s, r) :: HasGroup(s, r) }

  ghost predicate GroupsDistinct(s: State) {
    forall r: nat, r': nat | IsListed(s, r) && IsListed(s, r') && s.rooms[r].group == s.rooms[r'].group :: r == r'
  }

  ghost predicate GroupsOwned(s: State) {
    forall g | g in s.net.groups :: exists r: nat :: IsListed(s, r) && s.rooms[r].group == g
  }

  ghost predicate PlayersJoined(s: State) { forall h | h in s.players :: Net.HasJoined(s.net, h) }

  predicate KnowsRoom(s: State, h: HostId)
    requires InRoom(s, h)
  {
    Known(s.net, h) == Some(ViewOf(s.rooms[s.players[h].room.value]))
  }

  /** Replication: the picture of every connected player in a room is the server's table. */
  ghost predicate ViewsExact(s: State) {
    forall h | InRoom(s, h) && Net.IsConnected(s.net, h) :: KnowsRoom(s, h)
  }

  ghost predicate Tables(s: State) {
    ListAgrees(s) && PlayersSeated(s) && SeatsOwned(s) && RoomsOk(s) && NamesDistinct(s) && ChannelsOk(s)
  }

  ghost predicate Groups(s: State) {
    GroupsMatch(s) && GroupsDistinct(s) && GroupsOwned(s)
  }

  /** Holds also in the middle of a close, when the closing player is still being removed. */
  ghost predicate Consistent(s: State) {
    Net.Inv(s.net) && PlayersJoined(s) && Tables(s) && Groups(s) && ViewsExact(s)
  }

  /** Between callbacks no peer is half closed. */
  ghost predicate Inv(s: State) {
    Consistent(s) && forall h | h in s.net.peers :: !s.net.peers[h].Closed?
  }

  // --- Small facts -------------------------------------------------------------------------------

  lemma {:induction false} CountZero(slots: seq<HostId>)
    ensures PlayerCount(slots) == 0 <==> FirstTaken(slots) == |slots|
  {
    if slots != [] { CountZero(slots[..|slots| - 1]); }
  }

  lemma NobodyIsZero(s: State)
    requires Net.Inv(s.net) && PlayersJoined(s)
    ensures 0 !in s.players
  {
    assert !Net.WasIssued(s.net.next, 0);
    assert !Net.InUse(s.net, 0);
    assert !Net.HasJoined(s.net, 0);
  }

  lemma SeatsDistinct(s: State, r: RoomRef)
    requires SeatsOwned(s) && IsListed(s, r)
    ensures DistinctSeats(s.rooms[r].slots)
  {
    var slots := s.rooms[r].slots;
    forall i, j | 0 <= i < j < |slots| && slots[i] != 0 ensures slots[i] != slots[j] {
      assert Owns(s, slots[i], r, i);
      assert slots[j] != 0 ==> Owns(s, slots[j], r, j);
    }
  }

  /** The occupants of a listed room are the players that point at it. */
  lemma OccupantsAre(s: State, r: RoomRef, h: HostId)
    requires Tables(s) && IsListed(s, r) && 0 !in s.players
    ensures h in Occupants(s.rooms[r]) <==> h in s.players && s.players[h].room == Some(r)
  {
    if h in Occupants(s.rooms[r]) {
      var i :| 0 <= i < SLOTS && s.rooms[r].slots[i] == h;
      assert Owns(s, h, r, i);
    }
    if h in s.players && s.players[h].room == Some(r) {
      assert Seated(s, h);
    }
  }

  // --- Leaving: the tables -----------------------------------------------------------------------

  /** A room object after slot `i` was vacated. */
  function Vacated(room: RoomObject, i: nat): RoomObject
    requires i < SLOTS
  {
    var slots := room.slots[i := 0];
    room.(slots := slots,
          master := if PlayerCount(slots) != 0 && room.master == i then FirstTaken(slots) else room.master)
  }

  /** Tables after `h` left its room; the room disappears from the list with its last occupant. */
  function VacatedTables(s: State, h: HostId): State
    requires InRoom(s, h)
  {
    var p := s.players[h];
    var r := p.room.value;
    var room := Vacated(s.rooms[r], p.slot);
    s.(players := s.players[h := p.(room := None)],
       rooms := s.rooms[r := room],
       listed := if PlayerCount(room.slots) == 0 then s.listed - {room.number} else s.listed)
  }

  lemma RemoveTables(s: State, h: HostId, kicked: bool)
    requires InRoom(s, h)
    ensures var t := RemoveFromRoom(s, h, kicked); t == VacatedTables(s, h).(net := t.net)
  {
    var p := s.players[h];
    var r := p.room.value;
    var t := RemoveFromRoom(s, h, kicked);
    assert t.rooms == s.rooms[r := Vacated(s.rooms[r], p.slot)];
  }

  lemma VacatedList(s: State, h: HostId, r: RoomRef)
    requires Tables(s) && InRoom(s, h)
    ensures IsListed(VacatedTables(s, h), r) <==>
            IsListed(s, r) && (r == s.players[h].room.value ==> PlayerCount(VacatedTables(s, h).rooms[r].slots) != 0)
  {
    assert Seated(s, h);
  }

  lemma VacatedKeepsList(s: State, h: HostId)
    requires Tables(s) && InRoom(s, h)
    ensures ListAgrees(VacatedTables(s, h))
  {
    var t := VacatedTables(s, h);
    forall number | number in t.listed ensures ListedOk(t, number) {
      assert ListedOk(s, number);
    }
  }

  lemma VacatedKeepsSeats(s: State, h: HostId)
    requires Tables(s) && InRoom(s, h) && 0 !in s.players
    ensures PlayersSeated(VacatedTables(s, h)) && SeatsOwned(VacatedTables(s, h))
  {
    hide RoomOk, ListAgrees;
    var t := VacatedTables(s, h);
    var r := s.players[h].room.value;
    var slot := s.players[h].slot;
    assert Seated(s, h);
    forall o | o in t.players && t.players[o].room.Some? ensures Seated(t, o) {
      assert o != h && Seated(s, o);
      var q := s.players[o].room.value;
      if q == r {
        assert t.rooms[r].slots[s.players[o].slot] == o;
        CountZero(t.rooms[r].slots);
      }
      VacatedList(s, h, q);
    }
    forall q: nat, i | IsListed(t, q) && 0 <= i < SLOTS && t.rooms[q].slots[i] != 0
      ensures Owns(t, t.rooms[q].slots[i], q, i)
    {
      VacatedList(s, h, q);
      assert Owns(s, s.rooms[q].slots[i], q, i);
    }
  }

  lemma VacatedKeepsRooms(s: State, h: HostId)
    requires Tables(s) && InRoom(s, h)
    ensures RoomsOk(VacatedTables(s, h))
  {
    var t := VacatedTables(s, h);
    forall r: nat | IsListed(t, r) ensures RoomOk(t.rooms[r]) {
      VacatedList(s, h, r);
      assert RoomOk(s.rooms[r]);
      CountZero(t.rooms[r].slots);
    }
  }

  lemma VacatedKeepsTables(s: State, h: HostId)
    requires Tables(s) && InRoom(s, h) && 0 !in s.players
    ensures Tables(VacatedTables(s, h))
  {
    VacatedKeepsList(s, h);
    VacatedKeepsSeats(s, h);
    VacatedKeepsRooms(s, h);
    assert NamesDistinct(VacatedTables(s, h));
    assert ChannelsOk(VacatedTables(s, h));
  }

  // --- Leaving: the P2P side ---------------------------------------------------------------------

  lemma SendKeepsNet(n: Net.State, to: HostId, m: RoomMessage)
    ensures var t := Net.Send(n, to, Room(m)); t == n.(inbox := t.inbox) && t.inbox.Keys == n.inbox.Keys
    ensures Net.Inv(n) ==> Net.Inv(Net.Send(n, to, Room(m)))
  {
    Net.SendIsBroadcast(n, to, Room(m));
    if Net.Inv(n) { Net.BroadcastKeepsInv(n, {to}, Room(m)); }
  }

  lemma AnnounceNet(s: State, r: RoomRef, h: HostId, slot: nat)
    requires Net.Inv(s.net) && r < |s.rooms|
    ensures var t := Announce(s, r, h, slot);
            Net.Inv(t.net) && t.net == s.net.(inbox := t.net.inbox)
  {
    var slots := s.rooms[r].slots;
    var told := SendSlots(s.net, slots, RoomDelUser(Member(h, slot)), 0);
    SendSlotsShape(s.net, slots, RoomDelUser(Member(h, slot)), 0);
    SendSlotsShape(told, slots, NewRoomMaster(FirstTaken(slots)), 0);
  }

  /** Up to the point where the others are told, `h` has only left the P2P group. */
  function Farewell(s: State, h: HostId, kicked: bool): State
    requires InRoom(s, h)
  {
    if kicked then SendPlayer(Detach(s, h), h, KickedRoom) else Detach(s, h)
  }

  lemma FarewellNet(s: State, h: HostId, kicked: bool)
    requires Net.Inv(s.net) && InRoom(s, h) && HasGroup(s, s.players[h].room.value)
    ensures var f := Farewell(s, h, kicked).net;
            var g := s.rooms[s.players[h].room.value].group;
            && Net.Inv(f) && f.peers == s.net.peers && f.groups == s.net.groups[g := s.net.groups[g] - {h}]
            && f.free == s.net.free && f.next == s.net.next
  {
    var g := s.rooms[s.players[h].room.value].group;
    Net.LeaveKeepsInv(s.net, g, h);
    Net.LeaveShape(s.net, g, h);
    SendKeepsNet(Net.LeaveGroup(s.net, g, h), h, KickedRoom);
  }

  lemma RemoveNet(s: State, h: HostId, kicked: bool)
    requires Net.Inv(s.net) && InRoom(s, h) && HasGroup(s, s.players[h].room.value)
    ensures var t := RemoveFromRoom(s, h, kicked).net;
            var room := s.rooms[s.players[h].room.value];
            && Net.Inv(t) && t.peers == s.net.peers && t.next == s.net.next
            && if PlayerCount(room.slots[s.players[h].slot := 0]) == 0
               then t.groups == s.net.groups - {room.group} && t.free == s.net.free + {room.group}
               else t.groups == s.net.groups[room.group := s.net.groups[room.group] - {h}] && t.free == s.net.free
  {
    hide Net.Inv, Net.Send;
    var r := s.players[h].room.value;
    var f := Farewell(s, h, kicked);
    FarewellNet(s, h, kicked);
    if PlayerCount(f.rooms[r].slots) == 0 {
      Net.DestroyKeepsInv(f.net, f.rooms[r].group);
      Net.DestroyShape(f.net, f.rooms[r].group);
      assert f.net.groups - {f.rooms[r].group} == s.net.groups - {f.rooms[r].group};
    } else {
      AnnounceNet(f, r, h, s.players[h].slot);
    }
  }

  lemma VacatedOccupants(room: RoomObject, i: nat)
    requires i < SLOTS && DistinctSeats(room.slots) && room.slots[i] != 0
    ensures Occupants(Vacated(room, i)) == Occupants(room) - {room.slots[i]}
  {
    var t := Vacated(room, i);
    forall x ensures x in Occupants(t) <==> x in Occupants(room) - {room.slots[i]} {
      if x in Occupants(room) - {room.slots[i]} {
        var k :| 0 <= k < SLOTS && room.slots[k] == x;
        assert t.slots[k] == x;
      }
      if x in Occupants(t) {
        var k :| 0 <= k < SLOTS && t.slots[k] == x;
        assert room.slots[k] == x;
      }
    }
  }

  /** The P2P groups that go with the vacated tables. */
  predicate VacatedGroups(s: State, h: HostId, groups: map<HostId, set<HostId>>)
    requires InRoom(s, h)
  {
    var room := s.rooms[s.players[h].room.value];
    && room.group in s.net.groups
    && groups == if PlayerCount(room.slots[s.players[h].slot := 0]) == 0 then s.net.groups - {room.group}
                 else s.net.groups[room.group := s.net.groups[room.group] - {h}]
  }

  lemma VacatedKeepsMatch(s: State, h: HostId, t: State, q: nat)
    requires Tables(s) && Groups(s) && InRoom(s, h) && 0 !in s.players
    requires t == VacatedTables(s, h).(net := t.net) && VacatedGroups(s, h, t.net.groups)
    requires IsListed(t, q)
    ensures IsListed(s, q) && HasGroup(t, q) && t.rooms[q].group == s.rooms[q].group
  {
    hide Occupants, RoomOk, Owns, GroupsOwned;
    assert IsListed(VacatedTables(s, h), q);
    VacatedList(s, h, q);
    assert HasGroup(s, q);
    assert Seated(s, h);
    var r := s.players[h].room.value;
    if q == r {
      SeatsDistinct(s, r);
      VacatedOccupants(s.rooms[r], s.players[h].slot);
    } else {
      assert s.rooms[q].group != s.rooms[r].group;
    }
  }

  lemma VacatedKeepsOwned(s: State, h: HostId, t: State)
    requires Tables(s) && Groups(s) && InRoom(s, h)
    requires t == VacatedTables(s, h).(net := t.net) && VacatedGroups(s, h, t.net.groups)
    ensures GroupsOwned(t)
  {
    assert Seated(s, h);
    forall g | g in t.net.groups ensures exists q: nat :: IsListed(t, q) && t.rooms[q].group == g {
      assert g in s.net.groups;
      var q: nat :| IsListed(s, q) && s.rooms[q].group == g;
      VacatedList(s, h, q);
      assert IsListed(VacatedTables(s, h), q);
      assert IsListed(t, q) && t.rooms[q].group == g;
    }
  }

  lemma VacatedKeepsGroups(s: State, h: HostId, t: State)
    requires Tables(s) && Groups(s) && InRoom(s, h) && 0 !in s.players
    requires t == VacatedTables(s, h).(net := t.net) && VacatedGroups(s, h, t.net.groups)
    ensures Groups(t)
  {
    forall q: nat | IsListed(t, q)
      ensures IsListed(s, q) && HasGroup(t, q) && t.rooms[q].group == s.rooms[q].group
    {
      VacatedKeepsMatch(s, h, t, q);
    }
    VacatedKeepsOwned(s, h, t);
  }

  // --- Leaving: what the clients know ------------------------------------------------------------

  lemma FarewellKnown(s: State, h: HostId, kicked: bool, c: HostId)
    requires Net.Inv(s.net) && InRoom(s, h) && Net.IsConnected(s.net, c) && c != h
    ensures Known(Farewell(s, h, kicked).net, c) == Known(s.net, c)
  {
    var g := s.rooms[s.players[h].room.value].group;
    LeaveGroupKnown(s.net, g, h, c);
    Net.LeaveShape(s.net, g, h);
    SendKnown(Net.LeaveGroup(s.net, g, h), h, Room(KickedRoom), c);
  }

  lemma AnnounceKnown(s: State, r: RoomRef, h: HostId, slot: nat, c: HostId)
    requires Net.Inv(s.net) && r < |s.rooms| && DistinctSeats(s.rooms[r].slots)
    requires Net.IsConnected(s.net, c) && c != 0
    ensures var gone := ApplyToRoom(c, Known(s.net, c), Room(RoomDelUser(Member(h, slot))));
            Known(Announce(s, r, h, slot).net, c) ==
            if c !in s.rooms[r].slots then Known(s.net, c)
            else if s.rooms[r].master != slot then gone
            else ApplyToRoom(c, gone, Room(NewRoomMaster(FirstTaken(s.rooms[r].slots))))
  {
    var slots := s.rooms[r].slots;
    var told := SendSlots(s.net, slots, RoomDelUser(Member(h, slot)), 0);
    SendSlotsShape(s.net, slots, RoomDelUser(Member(h, slot)), 0);
    SendSlotsKnown(s.net, slots, RoomDelUser(Member(h, slot)), 0, c);
    SendSlotsKnown(told, slots, NewRoomMaster(FirstTaken(slots)), 0, c);
  }

  lemma RemoveKnownOutside(s: State, h: HostId, kicked: bool, c: HostId)
    requires Net.Inv(s.net) && InRoom(s, h) && HasGroup(s, s.players[h].room.value)
    requires DistinctSeats(s.rooms[s.players[h].room.value].slots)
    requires Net.IsConnected(s.net, c) && c != h && c != 0 && c !in s.rooms[s.players[h].room.value].slots
    ensures Known(RemoveFromRoom(s, h, kicked).net, c) == Known(s.net, c)
  {
    var r := s.players[h].room.value;
    var f := Farewell(s, h, kicked);
    FarewellNet(s, h, kicked);
    FarewellKnown(s, h, kicked, c);
    if PlayerCount(f.rooms[r].slots) == 0 {
      DestroyGroupKnown(f.net, f.rooms[r].group, c);
    } else {
      AnnounceKnown(f, r, h, s.players[h].slot, c);
    }
  }

  /** The departure messages turn the old picture into the new one. */
  lemma DepartureAmends(c: HostId, h: HostId, room: RoomObject, i: nat)
    requires i < SLOTS && PlayerCount(room.slots[i := 0]) != 0
    ensures var gone := ApplyToRoom(c, Some(ViewOf(room)), Room(RoomDelUser(Member(h, i))));
            Some(ViewOf(Vacated(room, i))) ==
            if room.master != i then gone else ApplyToRoom(c, gone, Room(NewRoomMaster(FirstTaken(room.slots[i := 0]))))
  {
  }

  lemma RemoveKnownInside(s: State, h: HostId, kicked: bool, c: HostId)
    requires Net.Inv(s.net) && InRoom(s, h) && HasGroup(s, s.players[h].room.value)
    requires DistinctSeats(s.rooms[s.players[h].room.value].slots)
    requires Net.IsConnected(s.net, c) && c != h && c != 0
    requires var room := s.rooms[s.players[h].room.value];
             && Known(s.net, c) == Some(ViewOf(room))
             && c in room.slots[s.players[h].slot := 0] && PlayerCount(room.slots[s.players[h].slot := 0]) != 0
    ensures Known(RemoveFromRoom(s, h, kicked).net, c) ==
            Some(ViewOf(Vacated(s.rooms[s.players[h].room.value], s.players[h].slot)))
  {
    var r := s.players[h].room.value;
    var f := Farewell(s, h, kicked);
    var i := s.players[h].slot;
    FarewellNet(s, h, kicked);
    FarewellKnown(s, h, kicked, c);
    DepartureAmends(c, h, s.rooms[r], i);
    AnnounceKnown(f, r, h, i, c);
  }

  lemma InsideStays(s: State, h: HostId, c: HostId)
    requires Tables(s) && ViewsExact(s) && InRoom(s, h) && Net.IsConnected(s.net, c) && c != h && c != 0
    requires c in s.rooms[s.players[h].room.value].slots
    ensures var room := s.rooms[s.players[h].room.value];
            && Known(s.net, c) == Some(ViewOf(room))
            && c in room.slots[s.players[h].slot := 0] && PlayerCount(room.slots[s.players[h].slot := 0]) != 0
  {
    var r := s.players[h].room.value;
    var slots := s.rooms[r].slots;
    assert Seated(s, h);
    var k :| 0 <= k < SLOTS && slots[k] == c;
    assert Owns(s, c, r, k);
    assert InRoom(s, c) && KnowsRoom(s, c);
    assert slots[s.players[h].slot := 0][k] == c;
    CountZero(slots[s.players[h].slot := 0]);
  }

  lemma RemoveKnown(s: State, h: HostId, kicked: bool, c: HostId)
    requires Consistent(s) && InRoom(s, h)
    requires InRoom(RemoveFromRoom(s, h, kicked), c) && Net.IsConnected(s.net, c)
    ensures KnowsRoom(RemoveFromRoom(s, h, kicked), c)
  {
    hide Net.Inv, SendSlots, ApplyToRoom, HasGroup, RoomsOk, NamesDistinct, ListAgrees, PlayerCount, RemoveFromRoom;
    NobodyIsZero(s);
    RemoveTables(s, h, kicked);
    assert InRoom(s, c) && KnowsRoom(s, c) && Seated(s, c);
    assert Seated(s, h) && HasGroup(s, s.players[h].room.value);
    SeatsDistinct(s, s.players[h].room.value);
    if c in s.rooms[s.players[h].room.value].slots {
      var k :| 0 <= k < SLOTS && s.rooms[s.players[h].room.value].slots[k] == c;
      assert Owns(s, c, s.players[h].room.value, k);
      InsideStays(s, h, c);
      RemoveKnownInside(s, h, kicked, c);
    } else {
      RemoveKnownOutside(s, h, kicked, c);
    }
  }

  /** `remove_from_room` keeps everything consistent. */
  lemma RemoveKeeps(s: State, h: HostId, kicked: bool)
    requires Consistent(s)
    ensures Consistent(RemoveFromRoom(s, h, kicked))
  {
    if InRoom(s, h) {
      var t := RemoveFromRoom(s, h, kicked);
      NobodyIsZero(s);
      assert Seated(s, h) && HasGroup(s, s.players[h].room.value);
      RemoveTables(s, h, kicked);
      RemoveNet(s, h, kicked);
      RemoveKeepsTables(s, h, t);
      VacatedKeepsGroups(s, h, t);
      assert PlayersJoined(t) by {
        forall o | o in t.players ensures Net.HasJoined(t.net, o) { assert Net.HasJoined(s.net, o); }
      }
      forall c | InRoom(t, c) && Net.IsConnected(t.net, c) ensures KnowsRoom(t, c) {
        RemoveKnown(s, h, kicked, c);
      }
    }
  }

  lemma RemoveKeepsTables(s: State, h: HostId, t: State)
    requires Tables(s) && InRoom(s, h) && 0 !in s.players
    requires t == VacatedTables(s, h).(net := t.net)
    ensures Tables(t)
  {
    VacatedKeepsTables(s, h);
    SameTables(VacatedTables(s, h), t);
  }

  /** The table clauses do not look at the network. */
  lemma SameTables(s: State, t: State)
    requires Tables(s) && t.players == s.players && t.rooms == s.rooms && t.listed == s.listed
    ensures Tables(t)
  {
    forall number | number in t.listed ensures ListedOk(t, number) { assert ListedOk(s, number); }
    forall h | h in t.players && t.players[h].room.Some? ensures Seated(t, h) { assert Seated(s, h); }
    forall r: nat, i | IsListed(t, r) && 0 <= i < SLOTS && t.rooms[r].slots[i] != 0
      ensures Owns(t, t.rooms[r].slots[i], r, i)
    {
      assert IsListed(s, r) && Owns(s, s.rooms[r].slots[i], r, i);
    }
    forall r: nat | IsListed(t, r) ensures RoomOk(t.rooms[r]) { assert IsListed(s, r); }
  }

  lemma SameGroups(s: State, t: State)
    requires Groups(s) && t.rooms == s.rooms && t.listed == s.listed && t.net.groups == s.net.groups
    ensures Groups(t)
  {
    forall r: nat | IsListed(t, r) ensures IsListed(s, r) && HasGroup(t, r) { assert IsListed(s, r) && HasGroup(s, r); }
    forall g | g in t.net.groups ensures exists r: nat :: IsListed(t, r) && t.rooms[r].group == g {
      var r: nat :| IsListed(s, r) && s.rooms[r].group == g;
      assert IsListed(t, r) && t.rooms[r].group == g;
    }
  }

  // --- Changes to player records that move nobody -------------------------------------------------

  predicate SameSeat(s: State, t: State, o: HostId) {
    && (o in t.players && t.players[o].room.Some? <==> o in s.players && s.players[o].room.Some?)
    && (o in s.players && o in t.players && s.players[o].room.Some? ==>
         t.players[o].room == s.players[o].room && t.players[o].slot == s.players[o].slot)
  }

  lemma SameSeatsTables(s: State, t: State)
    requires Tables(s) && t.rooms == s.rooms && t.listed == s.listed
    requires forall o :: SameSeat(s, t, o)
    ensures ListAgrees(t) && PlayersSeated(t) && SeatsOwned(t) && RoomsOk(t)
  {
    forall number | number in t.listed ensures ListedOk(t, number) { assert ListedOk(s, number); }
    forall o | o in t.players && t.players[o].room.Some?
      ensures Seated(t, o)
    {
      assert SameSeat(s, t, o) && Seated(s, o);
    }
    forall r: nat, i | IsListed(t, r) && 0 <= i < SLOTS && t.rooms[r].slots[i] != 0
      ensures Owns(t, t.rooms[r].slots[i], r, i)
    {
      assert IsListed(s, r) && Owns(s, s.rooms[r].slots[i], r, i);
      assert SameSeat(s, t, s.rooms[r].slots[i]);
    }
    forall r: nat | IsListed(t, r) ensures RoomOk(t.rooms[r]) { assert IsListed(s, r); }
  }

  lemma SameSeatsKeep(s: State, t: State)
    requires Consistent(s) && t == s.(players := t.players)
    requires forall o :: SameSeat(s, t, o)
    requires NamesDistinct(t) && ChannelsOk(t) && PlayersJoined(t)
    ensures Consistent(t)
  {
    SameSeatsTables(s, t);
    SameGroups(s, t);
    forall c | InRoom(t, c) && Net.IsConnected(t.net, c) ensures KnowsRoom(t, c) {
      assert SameSeat(s, t, c);
      assert InRoom(s, c) && KnowsRoom(s, c);
    }
  }
}
