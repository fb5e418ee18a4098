/**
  Why two of the exceptions of `SafeStep` and one of `Defined` are needed: a reachable server in which a lone player
  sits in its room is broken by a second logon and by entering that room again, and reads a released room when that
  player kicks itself.
 */
module GameWitness {
  import opened Hosts
  import opened Phases
  import Net
  import opened Game
  import opened GameInv
  import opened Handlers
  import opened GameRuns
  import opened Outsiders
  import opened GameTheorems
  import opened GameEffects

  lemma Prepend(s: State, x: Step, rest: seq<Step>)
    requires DefinedStep(s, x) && SafeStep(s, x) && SafeFrom(Apply(s, x), rest)
    ensures SafeFrom(s, [x] + rest) && RunFrom(s, [x] + rest) == RunFrom(Apply(s, x), rest)
  {
    assert ([x] + rest)[1..] == rest;
  }

  /** One connected client, not yet logged in. */
  predicate OneClient(s: State) {
    && s.net.peers == map[3 := Connected] && s.net.groups == map[] && s.net.free == {} && s.net.next == 4
    && s.net.inbox.Keys == {3} && s.players == map[] && s.rooms == [] && s.listed == map[] && s.nextNumber == 1
  }

  lemma Connects()
    ensures exists steps :: SafeFrom(INIT, steps) && OneClient(RunFrom(INIT, steps))
  {
    var s1 := Apply(INIT, Accepted);
    var s2 := Apply(s1, PublicKey(3, true));
    var s3 := Apply(s2, ConnectionRequest(3, true));
    assert s1.net == Net.State(map[3 := AwaitingPublicKey], map[], {}, 4, map[3 := []]);
    assert OneClient(s3);
    Prepend(s2, ConnectionRequest(3, true), []);
    Prepend(s1, PublicKey(3, true), [ConnectionRequest(3, true)]);
    Prepend(INIT, Accepted, [PublicKey(3, true)] + [ConnectionRequest(3, true)]);
  }

  /** That client, alone in room 1. */
  predicate LoneRoom(s: State) {
    && InPhase(s, 3, Connected)
    && s.players == map[3 := Player("u", 0, Some(0), 0)]
    && s.listed == map[1 := 0]
    && |s.rooms| == 1 && s.rooms[0].number == 1 && s.rooms[0].channel == 0 && s.rooms[0].maxPlayers == SLOTS
    && s.rooms[0].slots == NO_SEATS[0 := 3] && s.rooms[0].closed == ALL_OPEN
    && s.rooms[0].password == "" && !s.rooms[0].playing
  }

  lemma LogsOn(s: State)
    requires OneClient(s)
    ensures var t := Apply(s, LogonRequest(3, Some("u")));
            && t.net == t.net.(inbox := t.net.inbox) && t.net.peers == s.net.peers && t.net.groups == map[]
            && t.net.free == {} && t.net.next == 4 && t.net.inbox.Keys == {3}
            && t.players == map[3 := Player("u", NO_CHANNEL, None, 0)]
            && t.rooms == [] && t.listed == map[] && t.nextNumber == 1
  {
    assert OtherSessions(s, 3, "u") == {};
  }

  lemma Opens(s: State)
    requires s.net.peers == map[3 := Connected] && s.net.groups == map[] && s.net.free == {} && s.net.next == 4
    requires s.players == map[3 := Player("u", 0, None, 0)] && s.rooms == [] && s.listed == map[] && s.nextNumber == 1
    requires s.net.inbox.Keys == {3}
    ensures LoneRoom(Apply(s, PlayerRequest(3, MakeRoom(SLOTS, ""))))
  {
    hide Net.JoinGroup, Net.Send, FreeNumber, RemoveFromRoom;
    RemoveOutside(s, 3, false);
    FirstNumber();
    assert s.listed.Keys == {};
    var o := OpenRoom(s, 3, SLOTS, "");
    Net.JoinShape(Net.CreateGroup(s.net), 4, 3);
    SendKeepsNet(o.net, 3, CreateRoom(OK));
  }

  lemma FirstNumber()
    ensures FreeNumber({}, 1, 0) == 1
  {
  }

  lemma SettlesIn(s: State) returns (path: seq<Step>)
    requires OneClient(s)
    ensures SafeFrom(s, path) && LoneRoom(RunFrom(s, path))
  {
    var logon, channel, room :=
      LogonRequest(3, Some("u")), PlayerRequest(3, EnterChannel(0)), PlayerRequest(3, MakeRoom(SLOTS, ""));
    var s1 := Apply(s, logon);
    var s2 := Apply(s1, channel);
    LogsOn(s);
    assert s2.players == map[3 := Player("u", 0, None, 0)];
    Opens(s2);
    Prepend(s2, room, []);
    Prepend(s1, channel, [room]);
    Prepend(s, logon, [channel] + [room]);
    path := [logon] + ([channel] + [room]);
  }

  lemma LoneRoomReached()
    ensures exists steps :: SafeFrom(INIT, steps) && LoneRoom(RunFrom(INIT, steps))
  {
    hide Game.Apply, GameRuns.SafeStep;
    Connects();
    var steps :| SafeFrom(INIT, steps) && OneClient(RunFrom(INIT, steps));
    var path := SettlesIn(RunFrom(INIT, steps));
    Continue(INIT, steps, path);
    assert SafeFrom(INIT, steps + path) && LoneRoom(RunFrom(INIT, steps + path));
  }

  lemma {:induction false} Continue(s: State, steps: seq<Step>, more: seq<Step>)
    requires SafeFrom(s, steps) && SafeFrom(RunFrom(s, steps), more)
    ensures SafeFrom(s, steps + more) && RunFrom(s, steps + more) == RunFrom(RunFrom(s, steps), more)
    decreases |steps|
  {
    hide Game.Apply, GameRuns.SafeStep;
    if steps == [] {
      assert steps + more == more;
    } else {
      Continue(Apply(s, steps[0]), steps[1..], more);
      assert (steps + more)[1..] == steps[1..] + more;
    }
  }

  /** Logging on again from inside a room is refused by nothing and leaves a seat without an owner. */
  lemma SecondLogonBreaks()
    ensures exists steps, h, user ::
              && SafeFrom(INIT, steps) && Inv(RunFrom(INIT, steps))
              && !Inv(Apply(RunFrom(INIT, steps), LogonRequest(h, Some(user))))
  {
    LoneRoomReached();
    var steps :| SafeFrom(INIT, steps) && LoneRoom(RunFrom(INIT, steps));
    var s := RunFrom(INIT, steps);
    Reachable(steps);
    StepExact(s, LogonRequest(3, Some("u")));
  }

  /** Entering the room one is alone in seats the player in a room that was just delisted. */
  lemma ReentryBreaks()
    ensures exists steps, h, number ::
              && SafeFrom(INIT, steps) && Inv(RunFrom(INIT, steps))
              && !Inv(Apply(RunFrom(INIT, steps), PlayerRequest(h, VisitRoom(number, ""))))
  {
    LoneRoomReached();
    var steps :| SafeFrom(INIT, steps) && LoneRoom(RunFrom(INIT, steps));
    var s := RunFrom(INIT, steps);
    Reachable(steps);
    LoneReentry(s);
    StepExact(s, PlayerRequest(3, VisitRoom(1, "")));
  }

  lemma LoneReentry(s: State)
    requires LoneRoom(s)
    ensures DefinedStep(s, PlayerRequest(3, VisitRoom(1, ""))) && !SafeStep(s, PlayerRequest(3, VisitRoom(1, "")))
  {
    assert FreeSlot(s.rooms[0]) == Some(1) by { assert FreeSlotFrom(s.rooms[0], 1) == Some(1); }
    assert EnterOutcome(s, 0, 1, "") == Into(0);
    assert s.rooms[0].slots[0 := 0] == NO_SEATS;
    CountZero(NO_SEATS);
    assert Alone(s, 3);
  }

  /** A GM that is alone and kicks itself makes the sweep go on over a room that is gone. */
  lemma SelfKickReadsReleased()
    ensures exists steps, h, name, n: nat ::
              && SafeFrom(INIT, steps) && InRoom(RunFrom(INIT, steps), h) && n < SLOTS
              && !ReadsListed(RunFrom(INIT, steps), h, Some(name), n)
  {
    hide RunFrom, SafeFrom, ReadsListed, Inv, Consistent, KicksItselfOut, LoneRoom;
    LoneRoomReached();
    var steps :| SafeFrom(INIT, steps) && LoneRoom(RunFrom(INIT, steps));
    var s := RunFrom(INIT, steps);
    Reachable(steps);
    LoneKick(s);
    InvConsistent(s);
    UndefinedReadsReleased(s, 3, "u");
    assert !ReadsListed(s, 3, Some("u"), 1);
  }

  lemma LoneKick(s: State)
    requires LoneRoom(s)
    ensures InRoom(s, 3) && s.players[3].slot == 0 && KicksItselfOut(s, 3, "u")
  {
    assert s.rooms[0].slots[0 := 0] == NO_SEATS;
    CountZero(NO_SEATS);
  }
}
