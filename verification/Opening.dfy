/**
  Opening a room: the search for a number, and the consistency of the tables once it is listed.
 */
module Opening {
  import opened Hosts
  import Net
  import opened Game
  import opened RoomViews
  import opened GameInv

  // --- The number search -------------------------------------------------------------------------

  function Candidate(n: nat, k: nat): nat { (n + k) % NUMBERS }

  /** When the search starting at `n` tries `c`. */
  function Turn(n: nat, c: nat): nat { if c >= n % NUMBERS then c - n % NUMBERS else c + NUMBERS - n % NUMBERS }

  lemma TurnComes(n: nat, c: nat)
    requires c < NUMBERS
    ensures Turn(n, c) < NUMBERS && Candidate(n, Turn(n, c)) == c
  {
  }

  /** A number a new room may have. */
  predicate IsFree(used: set<nat>, c: nat) { 0 < c < NUMBERS && c !in used }

  lemma {:induction false} FreeNumberStops(used: set<nat>, n: nat, k: nat, j: nat)
    requires k <= j < NUMBERS && IsFree(used, Candidate(n, j))
    ensures IsFree(used, FreeNumber(used, n, k))
    decreases j - k
  {
    if k < j { FreeNumberStops(used, n, k + 1, j); }
  }

  lemma {:induction false} FreeNumberFails(used: set<nat>, n: nat, k: nat)
    requires !HasNumber(used)
    ensures FreeNumber(used, n, k) == 0
    decreases NUMBERS - k
  {
    if k < NUMBERS { FreeNumberFails(used, n, k + 1); }
  }

  /** The search finds an unused number other than 0 if and only if there is one. */
  lemma FreeNumberExactly(used: set<nat>, n: nat)
    ensures IsFree(used, FreeNumber(used, n, 0)) <==> HasNumber(used)
  {
    if HasNumber(used) {
      var c :| 0 < c < NUMBERS && c !in used;
      TurnComes(n, c);
      FreeNumberStops(used, n, 0, Turn(n, c));
    } else {
      FreeNumberFails(used, n, 0);
    }
  }

  /** ... and what it finds is the first from the counter on. */
  lemma {:induction false} FreeNumberFirst(used: set<nat>, n: nat, k: nat) returns (j: nat)
    requires IsFree(used, FreeNumber(used, n, k))
    ensures k <= j < NUMBERS && FreeNumber(used, n, k) == Candidate(n, j)
    ensures forall i | k <= i < j :: !IsFree(used, Candidate(n, i))
    decreases NUMBERS - k
  {
    if IsFree(used, Candidate(n, k)) {
      j := k;
    } else {
      j := FreeNumberFirst(used, n, k + 1);
    }
  }

  /** The loop of the source, which tries one candidate after the other, comes to an end if and only if a number is
      left; otherwise it goes on for ever. */
  lemma SearchEndsExactly(used: set<nat>, n: nat)
    ensures (exists k: nat :: IsFree(used, Candidate(n, k))) <==> HasNumber(used)
  {
    if HasNumber(used) {
      var c :| 0 < c < NUMBERS && c !in used;
      TurnComes(n, c);
      assert IsFree(used, Candidate(n, Turn(n, c)));
    }
  }

  /** All 65535 numbers. */
  function AllNumbers(): set<nat> { set c | 0 < c < NUMBERS && IsFree({}, c) }

  /** When all are taken no candidate is ever good enough. */
  lemma FullTableHasNone(n: nat, k: nat)
    ensures !HasNumber(AllNumbers()) && !IsFree(AllNumbers(), Candidate(n, k))
  {
    assert forall c | 0 < c < NUMBERS :: IsFree({}, c) ==> c in AllNumbers();
  }

  lemma CandidateNext(n: nat, k: nat)
    ensures Candidate(n, k + 1) == (Candidate(n, k) + 1) % NUMBERS
  {
  }

  lemma NumberNext(used: set<nat>, n: nat, k: nat)
    requires k < NUMBERS && (Candidate(n, k) in used || Candidate(n, k) == 0)
    ensures FreeNumber(used, n, k) == FreeNumber(used, n, k + 1)
  {
  }

  // --- The tables --------------------------------------------------------------------------------

  ghost predicate MayOpen(s: State, h: HostId) {
    h in s.players && s.players[h].room.None? && s.players[h].channel < CHANNELS && HasNumber(s.listed.Keys)
  }

  lemma OpenList(s: State, h: HostId, max: nat, password: string, q: nat)
    requires Tables(s) && MayOpen(s, h)
    ensures var t := OpenRoom(s, h, max, password);
            && |t.rooms| == |s.rooms| + 1
            && (IsListed(t, q) <==> IsListed(s, q) || q == |s.rooms|)
            && (IsListed(s, q) ==> t.rooms[q] == s.rooms[q])
  {
    hide RoomsOk;
    FreeNumberExactly(s.listed.Keys, s.nextNumber);
  }

  lemma OpenKeepsSeats(s: State, h: HostId, max: nat, password: string)
    requires Tables(s) && MayOpen(s, h)
    ensures PlayersSeated(OpenRoom(s, h, max, password)) && SeatsOwned(OpenRoom(s, h, max, password))
  {
    hide Net.Inv, RoomOk, RoomsOk, NamesDistinct;
    var t := OpenRoom(s, h, max, password);
    forall o | o in t.players && t.players[o].room.Some? ensures Seated(t, o) {
      if o != h {
        assert Seated(s, o);
        OpenList(s, h, max, password, s.players[o].room.value);
      } else {
        OpenList(s, h, max, password, |s.rooms|);
      }
    }
    forall q: nat, i | IsListed(t, q) && 0 <= i < SLOTS && t.rooms[q].slots[i] != 0
      ensures Owns(t, t.rooms[q].slots[i], q, i)
    {
      OpenList(s, h, max, password, q);
      if IsListed(s, q) { assert Owns(s, s.rooms[q].slots[i], q, i); }
    }
  }

  lemma OpenKeepsTables(s: State, h: HostId, max: nat, password: string)
    requires Tables(s) && MayOpen(s, h) && h != 0
    ensures Tables(OpenRoom(s, h, max, password))
  {
    hide Net.CreateGroup;
    var t := OpenRoom(s, h, max, password);
    OpenKeepsSeats(s, h, max, password);
    FreeNumberExactly(s.listed.Keys, s.nextNumber);
    forall number | number in t.listed ensures ListedOk(t, number) {
      if number in s.listed { assert ListedOk(s, number); }
    }
    forall q: nat | IsListed(t, q) ensures RoomOk(t.rooms[q]) { OpenList(s, h, max, password, q); }
  }

  // --- The network side --------------------------------------------------------------------------

  lemma OpenNet(s: State, h: HostId, max: nat, password: string)
    requires Net.Inv(s.net) && Net.HasId(s.net) && h in s.players && Net.HasJoined(s.net, h)
    ensures var n := OpenRoom(s, h, max, password).net;
            var g := Net.AllocatedId(s.net);
            Net.Inv(n) && n.peers == s.net.peers && g !in s.net.groups && n.groups == s.net.groups[g := {h}]
  {
    hide Net.Send;
    var g := Net.AllocatedId(s.net);
    Net.AllocateFresh(s.net);
    Net.CreateGroupExact(s.net);
    Net.JoinKeepsInv(Net.CreateGroup(s.net), g, h);
    Net.JoinShape(Net.CreateGroup(s.net), g, h);
    assert {} + {h} == {h};
  }

  lemma OpenKnown(s: State, h: HostId, max: nat, password: string, c: HostId)
    requires Net.Inv(s.net) && Net.HasId(s.net) && h in s.players && Net.IsConnected(s.net, c)
    ensures Known(OpenRoom(s, h, max, password).net, c) == Known(s.net, c)
  {
    Net.CreateGroupExact(s.net);
    Net.AllocateFresh(s.net);
    JoinGroupKnown(Net.CreateGroup(s.net), Net.AllocatedId(s.net), h, c);
  }

  lemma LoneOccupant(room: RoomObject, h: HostId)
    requires room.slots == NO_SEATS[0 := h] && h != 0
    ensures Occupants(room) == {h}
  {
    assert room.slots[0] == h;
  }

  lemma OpenHasGroup(s: State, h: HostId, max: nat, password: string, q: nat)
    requires Tables(s) && Groups(s) && MayOpen(s, h) && h != 0
    requires var t := OpenRoom(s, h, max, password); var g := Net.AllocatedId(s.net);
             IsListed(t, q) && g !in s.net.groups && t.net.groups == s.net.groups[g := {h}]
    ensures var t := OpenRoom(s, h, max, password);
            && HasGroup(t, q)
            && (q == |s.rooms| ==> t.rooms[q].group == Net.AllocatedId(s.net))
            && (q != |s.rooms| ==> IsListed(s, q) && t.rooms[q].group == s.rooms[q].group && HasGroup(s, q))
  {
    OpenList(s, h, max, password, q);
    if q == |s.rooms| {
      LoneOccupant(OpenRoom(s, h, max, password).rooms[q], h);
    } else {
      assert HasGroup(s, q);
    }
  }

  lemma OpenGroupOwned(s: State, h: HostId, max: nat, password: string, g: HostId)
    requires Tables(s) && Groups(s) && MayOpen(s, h)
    requires g in s.net.groups || g == Net.AllocatedId(s.net)
    ensures var t := OpenRoom(s, h, max, password); exists q: nat :: IsListed(t, q) && t.rooms[q].group == g
  {
    var t := OpenRoom(s, h, max, password);
    if g in s.net.groups {
      var q: nat :| IsListed(s, q) && s.rooms[q].group == g;
      OpenList(s, h, max, password, q);
      assert IsListed(t, q) && t.rooms[q].group == g;
    } else {
      OpenList(s, h, max, password, |s.rooms|);
      assert IsListed(t, |s.rooms|) && t.rooms[|s.rooms|].group == g;
    }
  }

  lemma OpenKeepsGroups(s: State, h: HostId, max: nat, password: string)
    requires Tables(s) && Groups(s) && MayOpen(s, h) && h != 0
    requires var t := OpenRoom(s, h, max, password); var g := Net.AllocatedId(s.net);
             g !in s.net.groups && t.net.groups == s.net.groups[g := {h}]
    ensures Groups(OpenRoom(s, h, max, password))
  {
    var t := OpenRoom(s, h, max, password);
    forall q: nat | IsListed(t, q)
      ensures HasGroup(t, q)
      ensures q == |s.rooms| ==> t.rooms[q].group == Net.AllocatedId(s.net)
      ensures q != |s.rooms| ==> IsListed(s, q) && t.rooms[q].group == s.rooms[q].group && HasGroup(s, q)
    {
      OpenHasGroup(s, h, max, password, q);
    }
    forall g | g in t.net.groups ensures exists q: nat :: IsListed(t, q) && t.rooms[q].group == g {
      OpenGroupOwned(s, h, max, password, g);
    }
  }

  lemma OpenKeeps(s: State, h: HostId, max: nat, password: string)
    requires Consistent(s) && MayOpen(s, h) && Net.HasId(s.net)
    ensures Consistent(SendPlayer(OpenRoom(s, h, max, password), h, CreateRoom(OK)))
  {
    hide Net.Send, Occupants, HasGroup, Owns, GroupsOwned, ListedOk, Groups, Net.CreateGroup, Net.JoinGroup,
      Net.AllocatedId;
    var o := OpenRoom(s, h, max, password);
    var t := SendPlayer(o, h, CreateRoom(OK));
    NobodyIsZero(s);
    assert Net.HasJoined(s.net, h);
    OpenNet(s, h, max, password);
    OpenKeepsTables(s, h, max, password);
    OpenKeepsGroups(s, h, max, password);
    SendKeepsNet(o.net, h, CreateRoom(OK));
    SameTables(o, t);
    SameGroups(o, t);
    forall p | p in t.players ensures Net.HasJoined(t.net, p) { assert Net.HasJoined(s.net, p); }
    forall c | InRoom(t, c) && Net.IsConnected(t.net, c) ensures KnowsRoom(t, c) {
      OpenKnown(s, h, max, password, c);
      SendKnown(o.net, h, Room(CreateRoom(OK)), c);
      if c != h { assert InRoom(s, c) && KnowsRoom(s, c) && Seated(s, c); }
    }
  }

  /** Opening a room keeps everything consistent, the opener's picture included, if and only if there is an id for
      its group. */
  lemma OpenExact(s: State, h: HostId, max: nat, password: string)
    requires Consistent(s) && MayOpen(s, h)
    ensures Consistent(SendPlayer(OpenRoom(s, h, max, password), h, CreateRoom(OK))) <==> Net.HasId(s.net)
  {
    hide Tables, Groups, ViewsExact, PlayersJoined, Net.Send, Net.JoinGroup;
    if Net.HasId(s.net) {
      OpenKeeps(s, h, max, password);
    } else {
      var o := OpenRoom(s, h, max, password);
      Net.AllocateCounts(s.net);
      Net.JoinShape(Net.CreateGroup(s.net), Net.AllocatedId(s.net), h);
      SendKeepsNet(o.net, h, CreateRoom(OK));
      assert o.net.next == 0;
    }
  }
}
