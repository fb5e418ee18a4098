/**
  Taking a seat in an existing room keeps the tables, the groups and every client's picture consistent.
 */
module Entering {
  import opened Hosts
  import Net
  import opened Game
  import opened RoomViews
  import opened GameInv

  /** `h` may sit down: it is in no room, the room is listed and `slot` is its lowest free slot. */
  ghost predicate MaySit(s: State, h: HostId, r: RoomRef, slot: nat) {
    && h in s.players && s.players[h].room.None? && s.players[h].channel < CHANNELS
    && IsListed(s, r) && FreeSlot(s.rooms[r]) == Some(slot)
  }

  lemma SeatKeepsSeats(s: State, h: HostId, r: RoomRef, slot: nat)
    requires Tables(s) && MaySit(s, h, r, slot) && 0 !in s.players
    ensures PlayersSeated(Seat(s, h, r, slot)) && SeatsOwned(Seat(s, h, r, slot))
  {
    hide RoomOk;
    var t := Seat(s, h, r, slot);
    forall o | o in t.players && t.players[o].room.Some? ensures Seated(t, o) {
      if o != h { assert Seated(s, o); }
    }
    forall q: nat, i | IsListed(t, q) && 0 <= i < SLOTS && t.rooms[q].slots[i] != 0
      ensures Owns(t, t.rooms[q].slots[i], q, i)
    {
      assert IsListed(s, q);
      if q != r || i != slot { assert Owns(s, s.rooms[q].slots[i], q, i); }
    }
  }

  lemma SeatKeepsTables(s: State, h: HostId, r: RoomRef, slot: nat)
    requires Tables(s) && MaySit(s, h, r, slot) && 0 !in s.players
    ensures Tables(Seat(s, h, r, slot))
  {
    var t := Seat(s, h, r, slot);
    SeatKeepsSeats(s, h, r, slot);
    forall number | number in t.listed ensures ListedOk(t, number) { assert ListedOk(s, number); }
    forall q: nat | IsListed(t, q) ensures RoomOk(t.rooms[q]) { assert IsListed(s, q) && RoomOk(s.rooms[q]); }
  }

  // --- The member list ---------------------------------------------------------------------------

  /** The first `k` seats of a table. */
  function Partial(slots: seq<HostId>, k: nat): (p: seq<HostId>)
    ensures |p| == |slots|
  {
    seq(|slots|, i requires 0 <= i < |slots| => if i < k then slots[i] else 0)
  }

  lemma PartialNext(slots: seq<HostId>, k: nat)
    requires 0 < k <= |slots|
    ensures Partial(slots, k) == Partial(slots, k - 1)[k - 1 := slots[k - 1]]
  {
  }

  lemma PutNext(players: map<HostId, Player>, slots: seq<HostId>)
    requires slots != []
    ensures var before := MembersOf(players, slots[..|slots| - 1]);
            var host := slots[|slots| - 1];
            Seats(MembersOf(players, slots)) ==
            if host in players then Put(Seats(before), players[host].slot, host) else Seats(before)
  {
    var before := MembersOf(players, slots[..|slots| - 1]);
    var host := slots[|slots| - 1];
    if host in players {
      assert (before + [Member(host, players[host].slot)])[..|before|] == before;
    }
  }

  /** The member list, written from the player records, spells out the seat table. */
  lemma {:induction false} SeatsOfMembers(players: map<HostId, Player>, slots: seq<HostId>, k: nat)
    requires |slots| == SLOTS && k <= SLOTS && 0 !in players
    requires forall i | 0 <= i < SLOTS && slots[i] != 0 :: slots[i] in players && players[slots[i]].slot == i
    ensures Seats(MembersOf(players, slots[..k])) == Partial(slots, k)
  {
    if k == 0 {
      assert Partial(slots, 0) == NO_SEATS;
    } else {
      SeatsOfMembers(players, slots, k - 1);
      assert slots[..k][..k - 1] == slots[..k - 1];
      PutNext(players, slots[..k]);
      PartialNext(slots, k);
    }
  }

  lemma EntryPicture(s: State, r: RoomRef)
    requires Tables(s) && IsListed(s, r) && 0 !in s.players
    ensures Seats(MembersOf(s.players, s.rooms[r].slots)) == s.rooms[r].slots
  {
    var slots := s.rooms[r].slots;
    forall i | 0 <= i < SLOTS && slots[i] != 0 ensures slots[i] in s.players && s.players[slots[i]].slot == i {
      assert Owns(s, slots[i], r, i);
    }
    SeatsOfMembers(s.players, slots, SLOTS);
    assert slots[..SLOTS] == slots && Partial(slots, SLOTS) == slots;
  }

  // --- The network side --------------------------------------------------------------------------

  lemma WelcomeShape(s: State, h: HostId, r: RoomRef, slot: nat)
    requires r < |s.rooms|
    ensures var t := Welcome(s, h, r, slot); t == s.(net := t.net)
  {
  }

  lemma WelcomeNet(s: State, h: HostId, r: RoomRef, slot: nat)
    requires Net.Inv(s.net) && r < |s.rooms| && Net.HasJoined(s.net, h) && s.rooms[r].group in s.net.groups
    ensures var n := Welcome(s, h, r, slot).net;
            var g := s.rooms[r].group;
            Net.Inv(n) && n.peers == s.net.peers && n.groups == s.net.groups[g := s.net.groups[g] + {h}]
  {
    var room := s.rooms[r];
    var m := EnterRoom(MembersOf(s.players, room.slots), room.master, room.closed, OK);
    var entered := Net.Send(s.net, h, Room(m));
    var told := SendSlots(entered, room.slots, RoomAddUser(Member(h, slot)), h);
    SendKeepsNet(s.net, h, m);
    SendSlotsShape(entered, room.slots, RoomAddUser(Member(h, slot)), h);
    Net.JoinKeepsInv(told, room.group, h);
    Net.JoinShape(told, room.group, h);
  }

  lemma WelcomeKnown(s: State, h: HostId, r: RoomRef, slot: nat, c: HostId)
    requires Net.Inv(s.net) && r < |s.rooms| && DistinctSeats(s.rooms[r].slots)
    requires Net.IsConnected(s.net, c) && c != 0
    ensures Known(Welcome(s, h, r, slot).net, c) ==
            if c == h
            then Some(RoomView(Seats(MembersOf(s.players, s.rooms[r].slots)), s.rooms[r].closed, s.rooms[r].master))
            else if c in s.rooms[r].slots then ApplyToRoom(c, Known(s.net, c), Room(RoomAddUser(Member(h, slot))))
            else Known(s.net, c)
  {
    var room := s.rooms[r];
    var m := EnterRoom(MembersOf(s.players, room.slots), room.master, room.closed, OK);
    var entered := Net.Send(s.net, h, Room(m));
    var told := SendSlots(entered, room.slots, RoomAddUser(Member(h, slot)), h);
    SendKeepsNet(s.net, h, m);
    SendKnown(s.net, h, Room(m), c);
    SendSlotsShape(entered, room.slots, RoomAddUser(Member(h, slot)), h);
    SendSlotsKnown(entered, room.slots, RoomAddUser(Member(h, slot)), h, c);
    JoinGroupKnown(told, room.group, h, c);
  }

  lemma SeatOccupants(room: RoomObject, slot: nat, h: HostId)
    requires slot < SLOTS && room.slots[slot] == 0 && h != 0
    ensures Occupants(room.(slots := room.slots[slot := h])) == Occupants(room) + {h}
  {
    var t: RoomObject := room.(slots := room.slots[slot := h]);
    forall x ensures x in Occupants(t) <==> x in Occupants(room) + {h} {
      if x in Occupants(room) {
        var k :| 0 <= k < SLOTS && room.slots[k] == x;
        assert t.slots[k] == x;
      }
      assert t.slots[slot] == h;
    }
  }

  lemma SeatKeepsGroups(s: State, h: HostId, r: RoomRef, slot: nat, t: State)
    requires Tables(s) && Groups(s) && MaySit(s, h, r, slot) && 0 !in s.players
    requires t == Seat(s, h, r, slot).(net := t.net)
    requires s.rooms[r].group in s.net.groups
    requires t.net.groups == s.net.groups[s.rooms[r].group := s.net.groups[s.rooms[r].group] + {h}]
    ensures Groups(t)
  {
    hide Tables;
    SeatOccupants(s.rooms[r], slot, h);
    forall q: nat | IsListed(t, q) ensures IsListed(s, q) && HasGroup(t, q) && t.rooms[q].group == s.rooms[q].group {
      assert IsListed(s, q) && HasGroup(s, q);
      if q != r { assert s.rooms[q].group != s.rooms[r].group; }
    }
    forall g | g in t.net.groups ensures exists q: nat :: IsListed(t, q) && t.rooms[q].group == g {
      var q: nat :| IsListed(s, q) && s.rooms[q].group == g;
      assert IsListed(t, q) && t.rooms[q].group == g;
    }
  }

  lemma SitKnownOther(s: State, h: HostId, r: RoomRef, slot: nat, c: HostId)
    requires Net.Inv(s.net) && Tables(s) && MaySit(s, h, r, slot) && 0 !in s.players && c != h
    requires Tables(Seat(s, h, r, slot)) && InRoom(s, c) && KnowsRoom(s, c) && Net.IsConnected(s.net, c)
    ensures Known(Welcome(Seat(s, h, r, slot), h, r, slot).net, c) ==
            Some(ViewOf(Seat(s, h, r, slot).rooms[s.players[c].room.value]))
  {
    hide Net.Inv, RoomOk;
    var seated := Seat(s, h, r, slot);
    assert IsListed(seated, r);
    SeatsDistinct(seated, r);
    WelcomeKnown(seated, h, r, slot, c);
    OccupantsAre(seated, r, c);
  }

  lemma SitKnownSelf(s: State, h: HostId, r: RoomRef, slot: nat)
    requires Net.Inv(s.net) && MaySit(s, h, r, slot) && 0 !in s.players
    requires Tables(Seat(s, h, r, slot)) && Net.IsConnected(s.net, h)
    ensures Known(Welcome(Seat(s, h, r, slot), h, r, slot).net, h) == Some(ViewOf(Seat(s, h, r, slot).rooms[r]))
  {
    var seated := Seat(s, h, r, slot);
    assert IsListed(seated, r);
    SeatsDistinct(seated, r);
    WelcomeKnown(seated, h, r, slot, h);
    EntryPicture(seated, r);
  }

  /** The second half of `join_room`, for a player that has left its old room. */
  lemma SitKeeps(s: State, h: HostId, r: RoomRef, slot: nat)
    requires Consistent(s) && MaySit(s, h, r, slot)
    ensures Consistent(Welcome(Seat(s, h, r, slot), h, r, slot))
  {
    hide RoomOk, SeatsOwned, NamesDistinct, GroupsOwned, ListAgrees;
    var seated := Seat(s, h, r, slot);
    var t := Welcome(seated, h, r, slot);
    NobodyIsZero(s);
    assert HasGroup(s, r) && Net.HasJoined(s.net, h);
    WelcomeNet(seated, h, r, slot);
    SeatKeepsTables(s, h, r, slot);
    SameTables(seated, t);
    SeatKeepsGroups(s, h, r, slot, t);
    forall o | o in t.players ensures Net.HasJoined(t.net, o) { assert Net.HasJoined(s.net, o); }
    forall c | InRoom(t, c) && Net.IsConnected(t.net, c) ensures KnowsRoom(t, c) {
      if c == h { SitKnownSelf(s, h, r, slot); } else { assert InRoom(s, c); SitKnownOther(s, h, r, slot, c); }
    }
  }
}
