/**
  What the room handlers do, exactly: who moves where, who becomes master, and that nobody else is touched.
 */
module GameEffects {
  import opened Hosts
  import Net
  import opened Game
  import opened RoomViews
  import opened GameInv
  import opened Entering
  import opened Opening
  import opened Handlers

  // --- Least slots -------------------------------------------------------------------------------

  lemma {:induction false} FirstTakenLeast(slots: seq<HostId>, k: nat)
    requires k < FirstTaken(slots)
    ensures slots[k] == 0
  {
    if k < |slots| - 1 && FirstTaken(slots) <= |slots| {
      var before := slots[..|slots| - 1];
      assert before[k] == slots[k];
      FirstTakenLeast(before, k);
    }
  }

  lemma {:induction false} FreeSlotLeast(room: RoomObject, i: nat, k: nat)
    requires FreeSlotFrom(room, i).Some? && i <= k < FreeSlotFrom(room, i).value
    ensures room.slots[k] != 0 || room.closed[k]
    decreases SLOTS - i
  {
    if i < k { FreeSlotLeast(room, i + 1, k); }
  }

  /** `i` is the lowest occupied slot. */
  predicate LowestTaken(slots: seq<HostId>, i: nat) {
    i < |slots| && slots[i] != 0 && forall k | 0 <= k < i :: slots[k] == 0
  }

  // --- Leaving -----------------------------------------------------------------------------------

  /** The seats after `h` left: one is empty, all others are as before. */
  predicate OnlySeatEmptied(s: State, t: State, r: RoomRef, i: nat) {
    && |t.rooms| == |s.rooms|
    && forall q, k | 0 <= q < |s.rooms| && 0 <= k < SLOTS ::
         t.rooms[q].slots[k] == if q == r && k == i then 0 else s.rooms[q].slots[k]
  }

  lemma LeaveSeats(s: State, h: HostId, kicked: bool)
    requires InRoom(s, h)
    ensures OnlySeatEmptied(s, RemoveFromRoom(s, h, kicked), s.players[h].room.value, s.players[h].slot)
  {
    hide RemoveFromRoom;
    RemoveTables(s, h, kicked);
  }

  lemma MasterAfter(room: RoomObject, i: nat)
    requires i < SLOTS && PlayerCount(room.slots[i := 0]) != 0
    ensures var v := Vacated(room, i);
            if room.master == i then LowestTaken(v.slots, v.master) else v.master == room.master
  {
    var slots := room.slots[i := 0];
    CountZero(slots);
    forall k | 0 <= k < FirstTaken(slots) ensures slots[k] == 0 { FirstTakenLeast(slots, k); }
  }

  lemma LastOneLeaves(room: RoomObject, i: nat)
    requires i < SLOTS && room.slots[i] != 0 && DistinctSeats(room.slots)
    ensures PlayerCount(room.slots[i := 0]) == 0 <==> Occupants(room) == {room.slots[i]}
  {
    var slots := room.slots[i := 0];
    CountZero(slots);
    assert forall k | 0 <= k < SLOTS && k != i :: room.slots[k] == slots[k];
    if PlayerCount(slots) == 0 {
      forall x | x in Occupants(room) ensures x == room.slots[i] {
        var k :| 0 <= k < SLOTS && room.slots[k] == x;
      }
    } else {
      var k := FirstTaken(slots);
      assert k != i && room.slots[k] in Occupants(room) && room.slots[k] != room.slots[i];
    }
  }

  /** Leaving or being kicked: one seat is vacated and nobody else moves.  The last one out takes the room off the
      list and its group with it; otherwise the room stays, and a vacated mastership passes to the lowest occupied
      slot. */
  lemma LeaveEffect(s: State, h: HostId, kicked: bool)
    requires Consistent(s) && InRoom(s, h)
    ensures var t := RemoveFromRoom(s, h, kicked); var p := s.players[h]; var r := p.room.value;
            && t.players == s.players[h := p.(room := None)]
            && OnlySeatEmptied(s, t, r, p.slot)
            && if Occupants(s.rooms[r]) == {h}
               then t.listed == s.listed - {s.rooms[r].number} && s.rooms[r].group !in t.net.groups
               else && t.listed == s.listed && IsListed(t, r)
                    && (if s.rooms[r].master == p.slot then LowestTaken(t.rooms[r].slots, t.rooms[r].master)
                        else t.rooms[r].master == s.rooms[r].master)
  {
    hide RemoveFromRoom, Vacated, RoomOk, Known, OnlySeatEmptied, LowestTaken, Occupants, Net.Inv, ViewsExact;
    var p := s.players[h];
    var r := p.room.value;
    NobodyIsZero(s);
    assert Seated(s, h);
    SeatsDistinct(s, r);
    LastOneLeaves(s.rooms[r], p.slot);
    RemoveTables(s, h, kicked);
    LeaveSeats(s, h, kicked);
    VacatedList(s, h, r);
    VacatedIs(s.rooms[r], p.slot);
    if PlayerCount(s.rooms[r].slots[p.slot := 0]) == 0 {
      LastGroupGone(s, h, kicked);
    } else {
      MasterAfter(s.rooms[r], p.slot);
    }
  }

  lemma VacatedIs(room: RoomObject, i: nat)
    requires i < SLOTS
    ensures Vacated(room, i).slots == room.slots[i := 0] && Vacated(room, i).number == room.number
  {
  }

  lemma LastGroupGone(s: State, h: HostId, kicked: bool)
    requires Consistent(s) && InRoom(s, h)
    requires PlayerCount(s.rooms[s.players[h].room.value].slots[s.players[h].slot := 0]) == 0
    ensures s.rooms[s.players[h].room.value].group !in RemoveFromRoom(s, h, kicked).net.groups
  {
    hide RemoveFromRoom, RoomOk, ViewsExact, SeatsOwned, NamesDistinct, GroupsOwned;
    assert Seated(s, h) && HasGroup(s, s.players[h].room.value);
    RemoveNet(s, h, kicked);
  }

  // --- Entering ----------------------------------------------------------------------------------

  /** `h` sits in the lowest slot of room `r` that was free. */
  predicate TookLowest(t: State, h: HostId, r: RoomRef) {
    && InRoom(t, h) && t.players[h].room == Some(r)
    && t.players[h].slot < Capacity(t.rooms[r]) && t.rooms[r].slots[t.players[h].slot] == h
    && forall k | 0 <= k < t.players[h].slot :: t.rooms[r].slots[k] != 0 || t.rooms[r].closed[k]
  }

  lemma SeatTakesLowest(s: State, h: HostId, r: RoomRef, slot: nat)
    requires h in s.players && r < |s.rooms| && FreeSlot(s.rooms[r]) == Some(slot)
    ensures TookLowest(Welcome(Seat(s, h, r, slot), h, r, slot), h, r)
    ensures Welcome(Seat(s, h, r, slot), h, r, slot).players ==
            s.players[h := s.players[h].(room := Some(r), slot := slot)]
  {
    hide Welcome;
    WelcomeShape(Seat(s, h, r, slot), h, r, slot);
    forall k | 0 <= k < slot
      ensures s.rooms[r].slots[k] != 0 || s.rooms[r].closed[k]
    {
      FreeSlotLeast(s.rooms[r], 0, k);
    }
  }

  /** Entering a room: unless it is the one the player is alone in, the player ends in its lowest free slot, having
      left wherever it was, with every other record as it was. */
  lemma JoinEffect(s: State, h: HostId, r: RoomRef, o: HostId)
    requires Consistent(s) && GoodEntry(s, h, Into(r)) && !ReentersAlone(s, h, Into(r))
    ensures var t := JoinRoom(s, h, r);
            && TookLowest(t, h, r) && IsListed(t, r) && t.players.Keys == s.players.Keys
            && (o in s.players && o != h ==> t.players[o] == s.players[o])
  {
    hide RemoveFromRoom, Welcome, FreeSlotFrom, RoomOk, Groups, ViewsExact, Net.Inv, TookLowest, Alone, Owns;
    var out := RemoveFromRoom(s, h, false);
    JoinStarts(s, h, r);
    RemoveMoves(s, h, false, o);
    var slot := FreeSlot(out.rooms[r]).value;
    SlotInRange(out.rooms[r]);
    SeatTakesLowest(out, h, r, slot);
    WelcomeShape(Seat(out, h, r, slot), h, r, slot);
  }

  lemma SlotInRange(room: RoomObject)
    ensures FreeSlot(room).Some? ==> FreeSlot(room).value < SLOTS
  {
  }

  /** Creating a room: the creator ends alone in a new room, as its master in slot 0, under a number that was not in
      use, with a capacity in 1..8, in its own channel. */
  lemma CreateEffect(s: State, h: HostId, max: nat, password: string)
    requires Consistent(s) && h in s.players && s.players[h].channel < CHANNELS
    requires Alone(s, h) || HasNumber(s.listed.Keys)
    ensures var t := CreateRoomFor(s, h, max, password); var r := |s.rooms|;
            && |t.rooms| == r + 1 && IsListed(t, r) && t.rooms[r].number !in RemoveFromRoom(s, h, false).listed
            && Occupants(t.rooms[r]) == {h} && t.rooms[r].master == 0
            && t.players[h] == s.players[h].(room := Some(r), slot := 0)
            && t.rooms[r].channel == s.players[h].channel && t.rooms[r].password == password && !t.rooms[r].playing
            && t.rooms[r].maxPlayers == (if 1 <= max <= SLOTS then max else SLOTS)
            && t.nextNumber == (t.rooms[r].number + 1) % 0x1_0000
  {
    hide RemoveFromRoom, OpenRoom, RoomOk, HasGroup, ViewsExact, Net.Inv, Occupants, Net.Send, IsListed;
    var out := RemoveFromRoom(s, h, false);
    NobodyIsZero(s);
    RemoveMoves(s, h, false, h);
    LeavingFrees(s, h);
    OpenEffect(out, h, max, password);
    SendTables(OpenRoom(out, h, max, password), h, CreateRoom(OK), |s.rooms|);
  }

  lemma OpenEffect(s: State, h: HostId, max: nat, password: string)
    requires h in s.players && h != 0 && HasNumber(s.listed.Keys)
    ensures var t := OpenRoom(s, h, max, password); var r := |s.rooms|;
            && |t.rooms| == r + 1 && IsListed(t, r) && t.rooms[r].number !in s.listed
            && Occupants(t.rooms[r]) == {h} && t.rooms[r].master == 0
            && t.players == s.players[h := s.players[h].(room := Some(r), slot := 0)]
            && t.rooms[r].channel == s.players[h].channel && t.rooms[r].password == password && !t.rooms[r].playing
            && t.rooms[r].maxPlayers == (if 1 <= max <= SLOTS then max else SLOTS)
            && t.rooms[r].number == FreeNumber(s.listed.Keys, s.nextNumber, 0)
            && t.nextNumber == (t.rooms[r].number + 1) % 0x1_0000
  {
    hide Net.JoinGroup, Net.CreateGroup, FreeNumber, Occupants;
    FreeNumberExactly(s.listed.Keys, s.nextNumber);
    LoneOccupant(OpenRoom(s, h, max, password).rooms[|s.rooms|], h);
  }

  lemma SendTables(s: State, h: HostId, m: RoomMessage, r: RoomRef)
    ensures var t := SendPlayer(s, h, m); t == s.(net := t.net) && (IsListed(t, r) <==> IsListed(s, r))
  {
  }

  // --- Kicking -----------------------------------------------------------------------------------

  /** Only the master kicks, never itself, and exactly the occupant of that slot leaves. */
  lemma KickEffect(s: State, h: HostId, slot: nat, o: HostId)
    requires Consistent(s) && h in s.players
    ensures var t := KickSlot(s, h, slot);
            && t.players.Keys == s.players.Keys
            && (o in s.players ==>
                 t.players[o] ==
                 if IsMaster(s, h) && o != h && s.players[o].room == s.players[h].room && s.players[o].slot == slot
                 then s.players[o].(room := None) else s.players[o])
  {
    hide RemoveFromRoom, RoomOk, HasGroup, Known, Net.Inv;
    NobodyIsZero(s);
    if InRoom(s, h) { assert Seated(s, h); }
    if o in s.players && s.players[o].room.Some? { assert Seated(s, o); }
    if IsMaster(s, h) && slot < SLOTS && slot != s.players[h].slot {
      var target := s.rooms[s.players[h].room.value].slots[slot];
      assert target != 0 ==> Owns(s, target, s.players[h].room.value, slot);
      if target in s.players { RemoveMoves(s, target, true, o); }
    }
  }

  /** A sweep that has reached slot `n`: whom it meant to remove and has met is gone, everyone else is in place, and
      the slots ahead are untouched. */
  predicate Swept(s: State, t: State, h: HostId, r: RoomRef, name: Option<string>, n: nat)
    requires r < |s.rooms|
  {
    && t.players.Keys == s.players.Keys && |t.rooms| == |s.rooms|
    && (forall o | o in s.players :: SweptRecord(s, t, h, r, name, n, o))
    && (forall k | n <= k < SLOTS :: t.rooms[r].slots[k] == s.rooms[r].slots[k])
  }

  predicate SweptRecord(s: State, t: State, h: HostId, r: RoomRef, name: Option<string>, n: nat, o: HostId)
    requires o in s.players
  {
    o in t.players &&
    t.players[o] == if GmRemoves(s, h, name, o) && s.players[o].room == Some(r) && s.players[o].slot < n
                    then s.players[o].(room := None) else s.players[o]
  }

  lemma SweepOneEffect(s: State, t: State, h: HostId, r: RoomRef, name: Option<string>, n: nat)
    requires SeatsOwned(s) && PlayersSeated(s) && PlayersSeated(t) && 0 !in s.players && IsListed(s, r) && n < SLOTS
    requires Swept(s, t, h, r, name, n)
    ensures Swept(s, SweepOne(t, h, r, name, n), h, r, name, n + 1)
  {
    hide RemoveFromRoom, Seated;
    var target := s.rooms[r].slots[n];
    var u := SweepOne(t, h, r, name, n);
    assert target != 0 ==> Owns(s, target, r, n);
    forall o | o in s.players ensures SweptRecord(s, u, h, r, name, n + 1, o) {
      assert SweptRecord(s, t, h, r, name, n, o);
      SeatedAt(s, o, r, n);
      assert target in s.players ==> SweptRecord(s, t, h, r, name, n, target);
      if GmRemoves(t, h, name, target) { RemoveMoves(t, target, true, o); }
    }
    if GmRemoves(t, h, name, target) {
      RemoveMoves(t, target, true, target);
      assert SweptRecord(s, t, h, r, name, n, target);
      if InRoom(t, target) { LeaveSeats(t, target, true); }
    }
  }

  lemma SeatedAt(s: State, o: HostId, r: RoomRef, n: nat)
    requires PlayersSeated(s) && o in s.players && r < |s.rooms| && n < SLOTS
    ensures s.players[o].room == Some(r) && s.players[o].slot == n ==> s.rooms[r].slots[n] == o
  {
    if s.players[o].room.Some? { assert Seated(s, o); }
  }

  lemma {:induction false} SweepEffect(s: State, h: HostId, r: RoomRef, name: Option<string>, n: nat)
    requires Consistent(s) && IsListed(s, r) && n <= SLOTS
    ensures Swept(s, GmSweep(s, h, r, name, n), h, r, name, n)
  {
    hide SweepOne, Net.Inv, ViewsExact, RoomOk, HasGroup, Seated, Owns, ViewOf;
    if n > 0 {
      SweepEffect(s, h, r, name, n - 1);
      GmSweepKeeps(s, h, r, name, n - 1);
      NobodyIsZero(s);
      SweepOneEffect(s, GmSweep(s, h, r, name, n - 1), h, r, name, n - 1);
    }
  }

  /** A GM's kick by name removes exactly the bearers of that name from the GM's room, the GM itself included. */
  lemma GmKickEffect(s: State, h: HostId, name: string, o: HostId)
    requires Consistent(s) && InRoom(s, h) && Defined(s, h, GmKick(name)) && o in s.players
    ensures var t := Handle(s, h, GmKick(name));
            && o in t.players
            && t.players[o] == if s.players[o].name == name && s.players[o].room == s.players[h].room
                               then s.players[o].(room := None) else s.players[o]
  {
    hide GmSweep, Net.Inv, ViewsExact, RoomOk, HasGroup, Owns;
    var r := s.players[h].room.value;
    assert Seated(s, h);
    SweepEffect(s, h, r, Some(name), SLOTS);
    assert SweptRecord(s, GmSweep(s, h, r, Some(name), SLOTS), h, r, Some(name), SLOTS, o);
    if s.players[o].room.Some? { assert Seated(s, o); }
  }

  /** The room is listed as long as somebody the sweep spares, or has yet to come to, is in it. */
  lemma ListedWhileHeld(s: State, h: HostId, r: RoomRef, name: Option<string>, n: nat, o: HostId)
    requires Consistent(s) && IsListed(s, r) && n <= SLOTS && o in s.players && s.players[o].room == Some(r)
    requires !(GmRemoves(s, h, name, o) && s.players[o].slot < n)
    ensures IsListed(GmSweep(s, h, r, name, n), r)
  {
    hide GmSweep, Net.Inv, ViewsExact, RoomOk, HasGroup, Owns, GmRemoves;
    var t := GmSweep(s, h, r, name, n);
    SweepEffect(s, h, r, name, n);
    GmSweepKeeps(s, h, r, name, n);
    assert SweptRecord(s, t, h, r, name, n, o);
    assert Seated(t, o);
  }

  /** ... and no longer than that. */
  lemma HeldWhileListed(s: State, h: HostId, r: RoomRef, name: Option<string>, n: nat)
    requires Consistent(s) && IsListed(s, r) && n <= SLOTS && IsListed(GmSweep(s, h, r, name, n), r)
    ensures exists o :: o in s.players && s.players[o].room == Some(r)
                        && !(GmRemoves(s, h, name, o) && s.players[o].slot < n)
  {
    hide GmSweep, Net.Inv, ViewsExact, HasGroup, GmRemoves;
    var t := GmSweep(s, h, r, name, n);
    SweepEffect(s, h, r, name, n);
    GmSweepKeeps(s, h, r, name, n);
    assert RoomOk(t.rooms[r]);
    var o := t.rooms[r].slots[t.rooms[r].master];
    assert Owns(t, o, r, t.rooms[r].master);
    assert SweptRecord(s, t, h, r, name, n, o);
  }

  /** A player alone in its room is the only one whose record points there. */
  lemma AloneIsOnly(s: State, h: HostId, o: HostId)
    requires Consistent(s) && Alone(s, h) && o in s.players && s.players[o].room == s.players[h].room
    ensures o == h
  {
    hide Net.Inv, ViewsExact, RoomOk, HasGroup;
    NobodyIsZero(s);
    assert Seated(s, h) && Seated(s, o);
    var others := s.rooms[s.players[h].room.value].slots[s.players[h].slot := 0];
    CountZero(others);
    assert others[s.players[o].slot] == 0;
  }

  /** Somebody with another name is in the room of a player that is not alone. */
  lemma NotAloneHasCompany(s: State, h: HostId)
    requires Consistent(s) && InRoom(s, h) && !Alone(s, h)
    ensures exists o ::
              o in s.players && s.players[o].room == s.players[h].room && s.players[o].name != s.players[h].name
  {
    hide Net.Inv, ViewsExact, RoomOk, HasGroup;
    var r := s.players[h].room.value;
    assert Seated(s, h);
    var others := s.rooms[r].slots[s.players[h].slot := 0];
    CountZero(others);
    var k := FirstTaken(others);
    assert s.rooms[r].slots[k] == others[k];
    assert Owns(s, others[k], r, k);
    assert others[k] != h;
  }

  /** At the moment the sweep reads slot `n`, the room it reads is listed. */
  predicate ReadsListed(s: State, h: HostId, name: Option<string>, n: nat)
    requires InRoom(s, h) && n <= SLOTS
  {
    IsListed(GmSweep(s, h, s.players[h].room.value, name, n), s.players[h].room.value)
  }

  lemma DefinedReadsListed(s: State, h: HostId, name: Option<string>, n: nat)
    requires Consistent(s) && InRoom(s, h) && n < SLOTS && SweepDefined(s, h, name)
    ensures ReadsListed(s, h, name, n)
  {
    hide GmSweep, Net.Inv, ViewsExact, RoomOk, HasGroup, Owns, Alone;
    var r := s.players[h].room.value;
    assert Seated(s, h);
    if GmRemoves(s, h, name, h) && !Alone(s, h) {
      NotAloneHasCompany(s, h);
      var o :| o in s.players && s.players[o].room == s.players[h].room && s.players[o].name != s.players[h].name;
      ListedWhileHeld(s, h, r, name, n, o);
    } else {
      ListedWhileHeld(s, h, r, name, n, h);
    }
  }

  lemma UndefinedReadsReleased(s: State, h: HostId, name: string)
    requires Consistent(s) && InRoom(s, h) && KicksItselfOut(s, h, name)
    ensures !ReadsListed(s, h, Some(name), s.players[h].slot + 1)
  {
    hide GmSweep, Net.Inv, ViewsExact, RoomOk, HasGroup, Owns;
    var r := s.players[h].room.value;
    var n := s.players[h].slot + 1;
    assert Seated(s, h);
    if ReadsListed(s, h, Some(name), n) {
      HeldWhileListed(s, h, r, Some(name), n);
      var o :| o in s.players && s.players[o].room == Some(r)
               && !(GmRemoves(s, h, Some(name), o) && s.players[o].slot < n);
      AloneIsOnly(s, h, o);
    }
  }

  /** A sweep reads its room only while it is listed if and only if it is not a GM that is alone kicking itself by name
      from a slot other than the last. */
  lemma SweepReadsExactly(s: State, h: HostId, name: Option<string>)
    requires Consistent(s) && InRoom(s, h)
    ensures (forall n | 0 <= n < SLOTS :: ReadsListed(s, h, name, n)) <==> SweepDefined(s, h, name)
  {
    hide Consistent, ReadsListed, KicksItselfOut;
    if SweepDefined(s, h, name) {
      forall n | 0 <= n < SLOTS ensures ReadsListed(s, h, name, n) { DefinedReadsListed(s, h, name, n); }
    } else {
      SlotAhead(s, h, name.value);
      UndefinedReadsReleased(s, h, name.value);
    }
  }

  lemma SlotAhead(s: State, h: HostId, name: string)
    requires KicksItselfOut(s, h, name)
    ensures InRoom(s, h) && s.players[h].slot + 1 < SLOTS
  {
  }
}
