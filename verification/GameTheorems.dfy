/**
  What the invariant means for every reachable state, and what follows over whole runs.
 */
module GameTheorems {
  import opened Hosts
  import opened Phases
  import Net
  import opened Game
  import opened RoomViews
  import opened GameInv
  import opened Handlers
  import opened GameRuns
  import opened Outsiders

  function RunFrom(s: State, steps: seq<Step>): State
    decreases |steps|
  {
    if steps == [] then s else RunFrom(Apply(s, steps[0]), steps[1..])
  }

  /** Nobody logs on again from inside a room or enters the room it is alone in, ids and room numbers do not run out,
      and no GM alone in its room kicks itself. */
  predicate SafeFrom(s: State, steps: seq<Step>)
    decreases |steps|
  {
    steps != [] ==> DefinedStep(s, steps[0]) && SafeStep(s, steps[0]) && SafeFrom(Apply(s, steps[0]), steps[1..])
  }

  lemma InitHolds()
    ensures Inv(INIT) && OutsidersKnow(INIT, {})
  {
  }

  lemma {:induction false} RunFromKeeps(s: State, steps: seq<Step>)
    requires Inv(s) && SafeFrom(s, steps)
    ensures Inv(RunFrom(s, steps))
    decreases |steps|
  {
    hide Inv, Apply, SafeStep, DefinedStep;
    if steps != [] {
      StepExact(s, steps[0]);
      RunFromKeeps(Apply(s, steps[0]), steps[1..]);
    }
  }

  lemma Reachable(steps: seq<Step>)
    requires SafeFrom(INIT, steps)
    ensures Inv(RunFrom(INIT, steps))
  {
    InitHolds();
    RunFromKeeps(INIT, steps);
  }

  // --- Agreement of the tables -------------------------------------------------------------------

  /** In every reachable state a player record points at slot `i` of room `r` exactly when `r` is listed and
      that slot holds the player's host. */
  lemma RecordsMatchSeats(steps: seq<Step>, h: HostId, r: RoomRef, i: nat)
    requires SafeFrom(INIT, steps) && i < SLOTS && h != 0
    ensures var s := RunFrom(INIT, steps);
            (h in s.players && s.players[h].room == Some(r) && s.players[h].slot == i) <==>
            (IsListed(s, r) && s.rooms[r].slots[i] == h)
  {
    var s := RunFrom(INIT, steps);
    Reachable(steps);
    if h in s.players && s.players[h].room == Some(r) { assert Seated(s, h); }
    if IsListed(s, r) && s.rooms[r].slots[i] == h { assert Owns(s, h, r, i); }
  }

  /** No host fills two seats, in one room or in two. */
  lemma OneSeatEach(steps: seq<Step>, r: RoomRef, i: nat, q: RoomRef, j: nat)
    requires SafeFrom(INIT, steps) && i < SLOTS && j < SLOTS
    requires var s := RunFrom(INIT, steps);
             IsListed(s, r) && IsListed(s, q) && s.rooms[r].slots[i] == s.rooms[q].slots[j] != 0
    ensures r == q && i == j
  {
    var s := RunFrom(INIT, steps);
    Reachable(steps);
    assert Owns(s, s.rooms[r].slots[i], r, i) && Owns(s, s.rooms[q].slots[j], q, j);
  }

  /** Listed rooms and P2P groups correspond one to one, and a room's group is its set of occupants. */
  lemma RoomsMatchGroups(steps: seq<Step>, r: RoomRef, g: HostId)
    requires SafeFrom(INIT, steps)
    ensures var s := RunFrom(INIT, steps);
            && (IsListed(s, r) ==>
                 && s.rooms[r].group in s.net.groups
                 && s.net.groups[s.rooms[r].group] == set h | h in s.players && s.players[h].room == Some(r))
            && (g in s.net.groups ==> exists q: nat :: IsListed(s, q) && s.rooms[q].group == g)
            && (forall q: nat | IsListed(s, r) && IsListed(s, q) && s.rooms[q].group == s.rooms[r].group :: q == r)
  {
    hide Net.Inv, ViewOf, RoomOk, ListAgrees, Tables;
    var s := RunFrom(INIT, steps);
    Reachable(steps);
    NobodyIsZero(s);
    if IsListed(s, r) {
      assert HasGroup(s, r);
      forall h ensures h in Occupants(s.rooms[r]) <==> h in s.players && s.players[h].room == Some(r) {
        OccupantsAre(s, r, h);
      }
    }
  }

  /** Every listed room is non-empty, its master slot is occupied, and its occupants sit in open slots below
      the maximum; players in rooms are in a valid channel and connected; one session per account. */
  lemma RoomsAreSound(steps: seq<Step>, r: RoomRef, h: HostId, o: HostId)
    requires SafeFrom(INIT, steps)
    ensures var s := RunFrom(INIT, steps);
            && (IsListed(s, r) ==>
                 && 1 <= s.rooms[r].maxPlayers <= SLOTS
                 && s.rooms[r].master < SLOTS && s.rooms[r].slots[s.rooms[r].master] != 0
                 && forall i | 0 <= i < SLOTS && s.rooms[r].slots[i] != 0 ::
                      i < s.rooms[r].maxPlayers && !s.rooms[r].closed[i])
            && (h in s.players ==> Net.IsConnected(s.net, h))
            && (h in s.players && s.players[h].room.Some? ==> s.players[h].channel < CHANNELS)
            && (h in s.players && o in s.players && s.players[h].name == s.players[o].name ==> h == o)
  {
    var s := RunFrom(INIT, steps);
    Reachable(steps);
    assert IsListed(s, r) ==> RoomOk(s.rooms[r]);
    assert h in s.players ==> Net.HasJoined(s.net, h) && ChannelOk(s.players[h]);
  }

  // --- Replication -------------------------------------------------------------------------------

  lemma {:induction false} RunFromOutside(s: State, steps: seq<Step>)
    requires Inv(s) && SafeFrom(s, steps) && OutsidersKnow(s, {})
    ensures OutsidersKnow(RunFrom(s, steps), {})
    decreases |steps|
  {
    hide Inv, Apply, SafeStep, DefinedStep, OutsidersKnow;
    if steps != [] {
      StepExact(s, steps[0]);
      StepOutside(s, steps[0]);
      RunFromOutside(Apply(s, steps[0]), steps[1..]);
    }
  }

  /** Whatever happened before, a client that folds the messages on its connection holds exactly the server's seat
      table, closed slots and master slot if it is in a room, and no picture of a room if it is in none. */
  lemma RoomViewsReplicate(steps: seq<Step>, h: HostId)
    requires SafeFrom(INIT, steps) && Net.IsConnected(RunFrom(INIT, steps).net, h)
    ensures var s := RunFrom(INIT, steps);
            && h in s.net.inbox && (h in s.players && s.players[h].room.Some? ==> s.players[h].room.value < |s.rooms|)
            && ClientView(h, s.net.inbox[h]) ==
               if h in s.players && s.players[h].room.Some?
               then var room := s.rooms[s.players[h].room.value]; Some(RoomView(room.slots, room.closed, room.master))
               else None
  {
    hide RunFrom, SafeFrom;
    var s := RunFrom(INIT, steps);
    Reachable(steps);
    InitHolds();
    RunFromOutside(INIT, steps);
    if h in s.players && s.players[h].room.Some? {
      assert Seated(s, h) && KnowsRoom(s, h);
    } else {
      assert IsOutside(s, h);
    }
  }

  /** ... and the P2P members it was told of are the occupants of that room. */
  lemma GroupViewIsRoom(steps: seq<Step>, h: HostId)
    requires SafeFrom(INIT, steps)
    requires h in RunFrom(INIT, steps).players && RunFrom(INIT, steps).players[h].room.Some?
    ensures var s := RunFrom(INIT, steps); var r := s.players[h].room.value;
            && r < |s.rooms| && h in s.net.inbox
            && Net.GroupView(h, s.rooms[r].group, s.net.inbox[h]) == Occupants(s.rooms[r])
  {
    var s := RunFrom(INIT, steps);
    Reachable(steps);
    NobodyIsZero(s);
    assert Seated(s, h) && Net.HasJoined(s.net, h);
    var r := s.players[h].room.value;
    assert HasGroup(s, r);
    OccupantsAre(s, r, h);
    assert Net.IsConnected(s.net, h);
  }

  // --- Closing a room ----------------------------------------------------------------------------

  predicate OnlyHereBelow(slots: seq<HostId>, h: HostId, i: nat) {
    forall k | 0 <= k < i && k < |slots| :: slots[k] == 0 || slots[k] == h
  }

  /** What the sweep needs to know about the tables. */
  ghost predicate SeatTables(s: State) {
    PlayersSeated(s) && SeatsOwned(s) && RoomsOk(s) && 0 !in s.players
  }

  lemma SweptSeats(s: State, h: HostId, r: RoomRef, n: nat)
    requires Consistent(s) && r < |s.rooms| && n <= SLOTS
    ensures SeatTables(GmSweep(s, h, r, None, n))
  {
    GmSweepKeeps(s, h, r, None, n);
    NobodyIsZero(GmSweep(s, h, r, None, n));
  }

  /** Removing the occupant of slot `i` empties that slot and moves nobody else. */
  lemma EvictOne(s: State, h: HostId, r: RoomRef, i: nat)
    requires SeatTables(s) && h in s.players && IsListed(s, r) && i < SLOTS
    requires s.rooms[r].slots[i] in s.players && s.rooms[r].slots[i] != h
    ensures var t := RemoveFromRoom(s, s.rooms[r].slots[i], true);
            && |t.rooms| == |s.rooms| && t.rooms[r].slots == s.rooms[r].slots[i := 0]
            && h in t.players && t.players[h] == s.players[h]
  {
    var target := s.rooms[r].slots[i];
    assert Owns(s, target, r, i);
    assert Seated(s, target);
    RemoveTables(s, target, true);
  }

  lemma SweepStep(s: State, h: HostId, r: RoomRef, i: nat)
    requires SeatTables(s) && InRoom(s, h) && s.players[h].room == Some(r) && i < SLOTS
    requires OnlyHereBelow(s.rooms[r].slots, h, i)
    ensures var t := SweepOne(s, h, r, None, i);
            && InRoom(t, h) && t.players[h] == s.players[h]
            && OnlyHereBelow(t.rooms[r].slots, h, i + 1)
  {
    var target := s.rooms[r].slots[i];
    assert Seated(s, h);
    if GmRemoves(s, h, None, target) {
      EvictOne(s, h, r, i);
    } else {
      assert target != 0 ==> Owns(s, target, r, i);
    }
  }

  lemma {:induction false} SweepClears(s: State, h: HostId, r: RoomRef, n: nat)
    requires InRoom(s, h) && s.players[h].room == Some(r) && n <= SLOTS
    requires forall k | 0 <= k < n :: SeatTables(GmSweep(s, h, r, None, k))
    ensures var t := GmSweep(s, h, r, None, n);
            InRoom(t, h) && t.players[h] == s.players[h] && OnlyHereBelow(t.rooms[r].slots, h, n)
  {
    hide Game.SweepOne;
    if n > 0 {
      SweepClears(s, h, r, n - 1);
      SweepStep(GmSweep(s, h, r, None, n - 1), h, r, n - 1);
    }
  }

  lemma SoleOccupant(s: State, h: HostId, r: RoomRef)
    requires SeatTables(s) && InRoom(s, h) && s.players[h].room == Some(r) && OnlyHereBelow(s.rooms[r].slots, h, SLOTS)
    ensures IsListed(s, r) && Occupants(s.rooms[r]) == {h} && s.rooms[r].master == s.players[h].slot
  {
    assert Seated(s, h) && RoomOk(s.rooms[r]);
    assert Owns(s, s.rooms[r].slots[s.rooms[r].master], r, s.rooms[r].master);
    forall x ensures x in Occupants(s.rooms[r]) <==> x == h {}
  }

  /** `gm_close_room` leaves its caller as the sole occupant and the master of the room. */
  lemma GmCloseLeavesCaller(s: State, h: HostId)
    requires Inv(s) && InRoom(s, h)
    ensures var t := Handle(s, h, GmCloseRoom); var r := s.players[h].room.value;
            && h in t.players && t.players[h] == s.players[h]
            && IsListed(t, r) && Occupants(t.rooms[r]) == {h} && t.rooms[r].master == s.players[h].slot
  {
    hide KnowsRoom, Net.IsConnected, HasGroup, RoomOk;
    var r := s.players[h].room.value;
    forall k | 0 <= k <= SLOTS ensures SeatTables(GmSweep(s, h, r, None, k)) { SweptSeats(s, h, r, k); }
    SweepClears(s, h, r, SLOTS);
    SoleOccupant(GmSweep(s, h, r, None, SLOTS), h, r);
  }

  // --- A race in progress ------------------------------------------------------------------------

  /** Room `r` is still being played and nobody new sits in it. */
  ghost predicate RaceGoesOn(s: State, t: State, r: RoomRef) {
    r < |s.rooms| <= |t.rooms| && t.rooms[r].playing && Occupants(t.rooms[r]) <= Occupants(s.rooms[r])
  }

  lemma RemoveGoesOn(s: State, h: HostId, kicked: bool, r: RoomRef)
    requires r < |s.rooms| && s.rooms[r].playing
    ensures RaceGoesOn(s, RemoveFromRoom(s, h, kicked), r)
  {
    if InRoom(s, h) {
      RemoveTables(s, h, kicked);
      var i := s.players[h].slot;
      assert forall x :: x in s.rooms[r].slots[i := 0] ==> x == 0 || x in s.rooms[r].slots;
    }
  }

  lemma {:induction false} SweepGoesOn(s: State, h: HostId, q: RoomRef, name: Option<string>, n: nat, r: RoomRef)
    requires q < |s.rooms| && r < |s.rooms| && s.rooms[r].playing && n <= SLOTS
    ensures RaceGoesOn(s, GmSweep(s, h, q, name, n), r)
  {
    if n > 0 {
      SweepGoesOn(s, h, q, name, n - 1, r);
      var before := GmSweep(s, h, q, name, n - 1);
      RemoveGoesOn(before, before.rooms[q].slots[n - 1], true, r);
    }
  }

  lemma CloseGoesOn(s: State, h: HostId, r: RoomRef)
    requires r < |s.rooms| && s.rooms[r].playing
    ensures RaceGoesOn(s, Close(s, h), r)
  {
    RemoveGoesOn(s.(net := Net.SetPhase(s.net, h, Closed)), h, false, r);
  }

  /** Nobody is let into a room that is being played. */
  lemma FollowGoesOn(s: State, h: HostId, e: Entry, r: RoomRef)
    requires r < |s.rooms| && s.rooms[r].playing && h in s.players
    requires e.Into? ==> e.room < |s.rooms| && !s.rooms[e.room].playing
    ensures RaceGoesOn(s, Follow(s, h, e), r)
  {
    RemoveGoesOn(s, h, false, r);
  }

  predicate OnlyRemoves(q: Request) { q.Kick? || q.GmCloseRoom? || q.GmKick? }

  lemma HandleGoesOn(s: State, h: HostId, q: Request, r: RoomRef)
    requires r < |s.rooms| && s.rooms[r].playing && h in s.players
    requires q.GotoWaitRoom? ==> s.players[h].room != Some(r)
    ensures RaceGoesOn(s, Handle(s, h, q), r)
  {
    if q.VisitRoom? {
      FollowGoesOn(s, h, EnterOutcome(s, s.players[h].channel, q.number, q.password), r);
    } else if q.QuickJoin? {
      QuickGoesOn(s, h, r);
    } else if OnlyRemoves(q) {
      RemovingGoesOn(s, h, q, r);
    } else if q.ShutSlot? || q.UnshutSlot? || q.Start? || q.GotoWaitRoom? {
      RetouchGoesOn(s, h, q, r);
    } else {
      RemoveGoesOn(s, h, false, r);
    }
  }

  lemma RetouchGoesOn(s: State, h: HostId, q: Request, r: RoomRef)
    requires r < |s.rooms| && s.rooms[r].playing && h in s.players
    requires q.ShutSlot? || q.UnshutSlot? || q.Start? || (q.GotoWaitRoom? && s.players[h].room != Some(r))
    ensures RaceGoesOn(s, Handle(s, h, q), r)
  {
  }

  lemma RemovingGoesOn(s: State, h: HostId, q: Request, r: RoomRef)
    requires r < |s.rooms| && s.rooms[r].playing && h in s.players && OnlyRemoves(q)
    ensures RaceGoesOn(s, Handle(s, h, q), r)
  {
    match q
    case Kick(slot) =>
      if IsMaster(s, h) && slot < SLOTS { RemoveGoesOn(s, s.rooms[s.players[h].room.value].slots[slot], true, r); }
    case GmCloseRoom => if InRoom(s, h) { SweepGoesOn(s, h, s.players[h].room.value, None, SLOTS, r); }
    case GmKick(name) => if InRoom(s, h) { SweepGoesOn(s, h, s.players[h].room.value, Some(name), SLOTS, r); }
  }

  lemma QuickGoesOn(s: State, h: HostId, r: RoomRef)
    requires r < |s.rooms| && s.rooms[r].playing && h in s.players
    ensures RaceGoesOn(s, Handle(s, h, QuickJoin), r)
  {
    hide Follow, RaceGoesOn, QuickOutcome;
    var channel := s.players[h].channel;
    QuickIsOpen(s, channel);
    FollowGoesOn(s, h, QuickOutcome(s, channel), r);
  }

  /** A quick join never leads into a running game. */
  lemma QuickIsOpen(s: State, channel: nat)
    ensures var e := QuickOutcome(s, channel); e.Into? ==> e.room < |s.rooms| && !s.rooms[e.room].playing
  {
    hide FreeSlot;
    var fits := set number | number in s.listed && OpenToAll(s, channel, number);
    assert fits != {} ==> OpenToAll(s, channel, Min(fits));
  }

  lemma LogonGoesOn(s: State, h: HostId, user: Option<string>, r: RoomRef)
    requires r < |s.rooms| && s.rooms[r].playing
    ensures RaceGoesOn(s, Logon(s, h, user), r)
  {
    if user.Some? {
      var others := OtherSessions(s, h, user.value);
      if others != {} { CloseGoesOn(SendPlayer(s, Min(others), Answer(FORCED_CLOSE, 2)), Min(others), r); }
    }
  }

  predicate EndsRace(s: State, step: Step, r: RoomRef) {
    step.PlayerRequest? && step.request.GotoWaitRoom? && step.host in s.players && s.players[step.host].room == Some(r)
  }

  lemma StepGoesOn(s: State, step: Step, r: RoomRef)
    requires r < |s.rooms| && s.rooms[r].playing && !EndsRace(s, step, r)
    ensures RaceGoesOn(s, Apply(s, step), r)
  {
    match step
    case LogonRequest(h, user) => LogonGoesOn(s, h, user, r);
    case PlayerRequest(h, q) => if h in s.players { HandleGoesOn(s, h, q, r); }
    case Accepted =>
    case PublicKey(h, _) => CloseGoesOn(s, h, r);
    case ConnectionRequest(h, _) => CloseGoesOn(s, h, r);
    case Disconnected(h) => CloseGoesOn(s, h, r);
  }

  predicate NobodyEndsRace(s: State, steps: seq<Step>, r: RoomRef)
    decreases |steps|
  {
    steps != [] ==> !EndsRace(s, steps[0], r) && NobodyEndsRace(Apply(s, steps[0]), steps[1..], r)
  }

  /** From the start of a race until a member returns to the waiting room, over any interleaving of
      callbacks, the occupants of the room can only become fewer. */
  lemma {:induction false} RaceOnlyShrinks(s: State, steps: seq<Step>, r: RoomRef)
    requires r < |s.rooms| && s.rooms[r].playing && NobodyEndsRace(s, steps, r)
    ensures RaceGoesOn(s, RunFrom(s, steps), r)
    decreases |steps|
  {
    if steps != [] {
      StepGoesOn(s, steps[0], r);
      RaceOnlyShrinks(Apply(s, steps[0]), steps[1..], r);
    }
  }
}
