/**
  The room table can fill up: a run lists a room under every one of the 65535 numbers, and the next player to create
  one starts a search that never ends.
 */
module FullTable {
  import opened Hosts
  import opened Phases
  import Net
  import opened Game
  import opened GameInv
  import opened Opening
  import opened Handlers
  import opened GameRuns
  import opened GameTheorems
  import opened GameWitness

  // --- Counting numbers --------------------------------------------------------------------------

  function Below(n: nat): set<nat> { if n == 0 then {} else Below(n - 1) + {n - 1} }

  lemma {:induction false} BelowIs(n: nat, c: nat)
    ensures c in Below(n) <==> c < n
    ensures |Below(n)| == n
  {
    if n > 0 {
      BelowIs(n - 1, c);
      BelowIs(n - 1, n - 1);
    }
  }

  lemma SubsetSize(a: set<nat>, b: set<nat>)
    requires a <= b
    ensures |a| <= |b|
  {
    if a != {} {
      var x :| x in a;
      SubsetSize(a - {x}, b - {x});
    }
  }

  /** The numbers not in use. */
  function Unused(listed: map<nat, RoomRef>): set<nat> { AllNumbers() - listed.Keys }

  lemma AtMostNumbers()
    ensures |Unused(map[])| <= NUMBERS
  {
    forall c | c in Unused(map[]) ensures c in Below(NUMBERS) { BelowIs(NUMBERS, c); }
    BelowIs(NUMBERS, 0);
    SubsetSize(Unused(map[]), Below(NUMBERS));
  }

  lemma IsNumber(c: nat)
    requires 0 < c < NUMBERS
    ensures c in AllNumbers()
  {
    assert IsFree({}, c);
  }

  lemma UseOne(listed: map<nat, RoomRef>, c: nat, r: RoomRef)
    requires IsFree(listed.Keys, c)
    ensures |Unused(listed[c := r])| == |Unused(listed)| - 1
  {
    hide AllNumbers;
    IsNumber(c);
    assert listed[c := r].Keys == listed.Keys + {c};
    assert Unused(listed[c := r]) == Unused(listed) - {c};
  }

  // --- One more player ---------------------------------------------------------------------------

  /** All account names are at most so long. */
  predicate NamesUpTo(s: State, long: nat) { forall h | h in s.players :: |s.players[h].name| <= long }

  /** A name nobody has. */
  function Newcomer(long: nat): string { seq(long + 1, _ => 'a') }

  /** A connection comes into being; the tables of the game are as they were. */
  predicate OnlyPeer(s: State, t: State, h: HostId, phase: Phase) {
    && t == s.(net := t.net) && h !in s.players && InPhase(t, h, phase) && t.net.next <= s.net.next + 2
  }

  lemma Arrives(s: State)
    requires Inv(s) && s.net.next + 4 < Net.ID_SPACE
    ensures OnlyPeer(s, Apply(s, Accepted), Net.AllocatedId(s.net), AwaitingPublicKey)
    ensures SafeStep(s, Accepted)
  {
    hide Tables, Groups, ViewsExact;
    Net.AllocateFresh(s.net);
    var h := Net.AllocatedId(s.net);
    assert h in s.players ==> Net.HasJoined(s.net, h);
  }

  lemma ShakesHands(s: State, t: State, h: HostId)
    requires OnlyPeer(s, t, h, AwaitingPublicKey)
    ensures OnlyPeer(s, Apply(Apply(t, PublicKey(h, true)), ConnectionRequest(h, true)), h, Connected)
    ensures SafeStep(t, PublicKey(h, true)) && SafeStep(Apply(t, PublicKey(h, true)), ConnectionRequest(h, true))
  {
  }

  /** A new player in the lobby of a channel; nothing else of the game has changed. */
  predicate OnlyPlayer(s: State, t: State, h: HostId, channel: nat, long: nat) {
    && t == s.(net := t.net, players := t.players) && InPhase(t, h, Connected) && t.net.next <= s.net.next + 2
    && t.players == s.players[h := Player(Newcomer(long), channel, None, 0)]
  }

  lemma LogsOnFresh(s: State, t: State, h: HostId, long: nat)
    requires OnlyPeer(s, t, h, Connected) && NamesUpTo(s, long)
    ensures OnlyPlayer(s, Apply(t, LogonRequest(h, Some(Newcomer(long)))), h, NO_CHANNEL, long)
    ensures SafeStep(t, LogonRequest(h, Some(Newcomer(long))))
  {
    hide Net.Send;
    assert OtherSessions(t, h, Newcomer(long)) == {};
    var u := t.(players := t.players[h := Player(Newcomer(long), NO_CHANNEL, None, 0)]);
    SendKeepsNet(u.net, h, Answer(LOGON_ANSWER, OK));
  }

  lemma EntersChannel(s: State, t: State, h: HostId, long: nat)
    requires OnlyPlayer(s, t, h, NO_CHANNEL, long)
    ensures OnlyPlayer(s, Apply(t, PlayerRequest(h, EnterChannel(0))), h, 0, long)
    ensures var step := PlayerRequest(h, EnterChannel(0)); DefinedStep(t, step) && SafeStep(t, step)
  {
    hide Net.Send;
    SendKeepsNet(SetChannel(t, h, 0).net, h, Answer(ENTER_CHANNEL, OK));
  }

  /** Five callbacks bring a new player into a channel. */
  lemma ComesIn(s: State, long: nat) returns (path: seq<Step>, h: HostId)
    requires Inv(s) && NamesUpTo(s, long) && s.net.next + 4 < Net.ID_SPACE
    ensures SafeFrom(s, path) && OnlyPlayer(s, RunFrom(s, path), h, 0, long) && Inv(RunFrom(s, path))
  {
    hide Apply, SafeStep, Inv, OnlyPeer, OnlyPlayer;
    h := Net.AllocatedId(s.net);
    var a, b, c := Accepted, PublicKey(h, true), ConnectionRequest(h, true);
    var d, e := LogonRequest(h, Some(Newcomer(long))), PlayerRequest(h, EnterChannel(0));
    var s1 := Apply(s, a);
    var s2 := Apply(s1, b);
    var s3 := Apply(s2, c);
    var s4 := Apply(s3, d);
    Arrives(s);
    ShakesHands(s, s1, h);
    LogsOnFresh(s, s3, h, long);
    EntersChannel(s, s4, h, long);
    Prepend(s4, e, []);
    Prepend(s3, d, [e]);
    Prepend(s2, c, [d] + [e]);
    Prepend(s1, b, [c] + ([d] + [e]));
    Prepend(s, a, [b] + ([c] + ([d] + [e])));
    path := [a] + ([b] + ([c] + ([d] + [e])));
    RunFromKeeps(s, path);
  }

  // --- One more room -----------------------------------------------------------------------------

  lemma OpenedIs(t: State, h: HostId)
    requires InPhase(t, h, Connected) && h in t.players && t.players[h].room.None? && t.players[h].channel == 0
    requires t.net.next + 2 < Net.ID_SPACE && HasNumber(t.listed.Keys)
    ensures var step := PlayerRequest(h, MakeRoom(SLOTS, "")); var u := Apply(t, step);
            var c := FreeNumber(t.listed.Keys, t.nextNumber, 0);
            && DefinedStep(t, step) && SafeStep(t, step)
            && u.listed == t.listed[c := |t.rooms|] && u.net.next <= t.net.next + 2
            && u.players == t.players[h := t.players[h].(room := Some(|t.rooms|), slot := 0)]
  {
    hide RemoveFromRoom, Net.Send, Net.JoinGroup, FreeNumber, Alone, HasNumber, Net.AllocatedId;
    RemoveOutside(t, h, false);
    var o := OpenRoom(t, h, SLOTS, "");
    Net.JoinShape(Net.CreateGroup(t.net), Net.AllocatedId(t.net), h);
    SendKeepsNet(o.net, h, CreateRoom(OK));
  }

  lemma OpensOne(s: State, t: State, h: HostId, long: nat)
    requires OnlyPlayer(s, t, h, 0, long) && NamesUpTo(s, long)
    requires s.net.next + 4 < Net.ID_SPACE && HasNumber(s.listed.Keys)
    ensures var step := PlayerRequest(h, MakeRoom(SLOTS, "")); var u := Apply(t, step);
            && DefinedStep(t, step) && SafeStep(t, step)
            && NamesUpTo(u, long + 1) && u.net.next <= s.net.next + 4
            && |Unused(u.listed)| == |Unused(s.listed)| - 1
  {
    hide Apply, FreeNumber, DefinedStep, SafeStep, Unused, HasNumber;
    OpenedIs(t, h);
    FreeNumberExactly(t.listed.Keys, t.nextNumber);
    UseOne(s.listed, FreeNumber(t.listed.Keys, t.nextNumber, 0), |t.rooms|);
  }

  /** Room by room until no number is left. */
  lemma {:induction false} FillsUp(s: State, long: nat) returns (path: seq<Step>)
    requires Inv(s) && NamesUpTo(s, long) && s.net.next + 4 * |Unused(s.listed)| + 8 < Net.ID_SPACE
    ensures SafeFrom(s, path) && Inv(RunFrom(s, path)) && !HasNumber(RunFrom(s, path).listed.Keys)
    ensures RunFrom(s, path).net.next + 8 < Net.ID_SPACE && exists l :: NamesUpTo(RunFrom(s, path), l)
    decreases |Unused(s.listed)|
  {
    hide Apply, SafeStep, Inv, OnlyPlayer, NamesUpTo, Unused;
    if !HasNumber(s.listed.Keys) {
      path := [];
      assert NamesUpTo(s, long);
    } else {
      var start, h := ComesIn(s, long);
      var t := RunFrom(s, start);
      var step := PlayerRequest(h, MakeRoom(SLOTS, ""));
      OpensOne(s, t, h, long);
      var u := Apply(t, step);
      StepExact(t, step);
      var rest := FillsUp(u, long + 1);
      Prepend(t, step, rest);
      Continue(s, start, [step] + rest);
      path := start + ([step] + rest);
    }
  }

  /** A run, every step of it with an outcome and safe, after which a player in a channel who creates a room starts a
      search that never ends. */
  lemma SearchCanGoOnForEver()
    ensures exists steps, h ::
              && SafeFrom(INIT, steps) && InPhase(RunFrom(INIT, steps), h, Connected)
              && h in RunFrom(INIT, steps).players && RunFrom(INIT, steps).players[h].channel < CHANNELS
              && !DefinedStep(RunFrom(INIT, steps), PlayerRequest(h, MakeRoom(SLOTS, "")))
  {
    hide Apply, SafeStep, Inv, NamesUpTo, Unused, RunFrom, SafeFrom, DefinedStep;
    InitHolds();
    AtMostNumbers();
    NobodyNamed();
    var path := FillsUp(INIT, 0);
    var s := RunFrom(INIT, path);
    var long :| NamesUpTo(s, long);
    var more, h := ComesIn(s, long);
    Continue(INIT, path, more);
    NoNumberForIt(s, RunFrom(s, more), h, long);
    assert SafeFrom(INIT, path + more);
  }

  lemma NobodyNamed()
    ensures NamesUpTo(INIT, 0) && INIT.listed == map[] && INIT.net.next == 3
  {
  }

  lemma NoNumberForIt(s: State, t: State, h: HostId, long: nat)
    requires OnlyPlayer(s, t, h, 0, long) && !HasNumber(s.listed.Keys)
    ensures InPhase(t, h, Connected) && h in t.players && t.players[h].channel < CHANNELS
    ensures !DefinedStep(t, PlayerRequest(h, MakeRoom(SLOTS, "")))
  {
    hide RemoveFromRoom;
    RemoveOutside(t, h, false);
  }
}
