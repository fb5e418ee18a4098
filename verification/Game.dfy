/**
  The game server's tables -- players, rooms, the room list -- on top of the ProudNet state, and the
  handlers as functions on them.  Rooms are shared objects in the source, so they live here in a
  sequence and are referred to by index: a room can be held by a player and yet not be listed.
 */
module Game {
  import opened Hosts
  import opened Phases
  import Net

  const SLOTS: nat := 8
  const CHANNELS: nat := 6
  const NO_CHANNEL: nat := 0xff
  const NUMBERS: nat := 0x1_0000

  const OK: nat := 0
  const FAILED: nat := 1
  const WRONG_PASSWORD: nat := 11
  const FULL: nat := 12
  const PLAYING: nat := 13

  const LOGON_ANSWER: nat := 0x579
  const LOGOUT_OK: nat := 0x57a
  const ENTER_LOBBY: nat := 0x582
  const ENTER_CHANNEL: nat := 0x583
  const LEAVE_CHANNEL: nat := 0x584
  const CHANGE_CHANNEL: nat := 0x585
  const FORCED_CLOSE: nat := 0x5ac

  type RoomRef = nat

  /** A room number or the counter they come from, 16 bits. */
  type Number = n: nat | n < NUMBERS

  datatype Player = Player(name: string, channel: nat, room: Option<RoomRef>, slot: nat)

  datatype RoomData = RoomData(
    number: nat,
    channel: nat,
    maxPlayers: nat,
    password: string,
    slots: seq<HostId>,
    closed: seq<bool>,
    master: nat,
    group: HostId,
    playing: bool)

  const NO_SEATS: seq<HostId> := [0, 0, 0, 0, 0, 0, 0, 0]
  const ALL_OPEN: seq<bool> := [false, false, false, false, false, false, false, false]

  /** Both tables are fixed arrays of eight. */
  type RoomObject = r: RoomData | |r.slots| == SLOTS && |r.closed| == SLOTS
    witness RoomData(0, 0, 0, "", NO_SEATS, ALL_OPEN, 0, 0, false)

  datatype State = State(
    net: Net.State,
    players: map<HostId, Player>,
    rooms: seq<RoomObject>,
    listed: map<nat, RoomRef>,
    nextNumber: Number)

  const INIT := State(Net.INIT, map[], [], map[], 1)

  // --- Rooms -------------------------------------------------------------------------------------

  function Occupants(r: RoomObject): set<HostId> { SetOf(r.slots) - {0} }

  function PlayerCount(slots: seq<HostId>): nat {
    if slots == [] then 0 else PlayerCount(slots[..|slots| - 1]) + if slots[|slots| - 1] != 0 then 1 else 0
  }

  function Capacity(r: RoomObject): nat {
    var max := if r.maxPlayers != 0 then r.maxPlayers else SLOTS;
    if max < SLOTS then max else SLOTS
  }

  function FreeSlotFrom(r: RoomObject, i: nat): (slot: Option<nat>)
    ensures slot.Some? ==> i <= slot.value < Capacity(r) && r.slots[slot.value] == 0 && !r.closed[slot.value]
    ensures slot.None? ==> forall k | i <= k < Capacity(r) :: r.slots[k] != 0 || r.closed[k]
    decreases SLOTS - i
  {
    if i >= Capacity(r) then None
    else if r.slots[i] == 0 && !r.closed[i] then Some(i)
    else FreeSlotFrom(r, i + 1)
  }

  /** The lowest slot a newcomer may take. */
  function FreeSlot(r: RoomObject): Option<nat> { FreeSlotFrom(r, 0) }

  /** The first occupied slot, or `SLOTS`. */
  function FirstTaken(slots: seq<HostId>): (i: nat)
    ensures i <= |slots|
    ensures i < |slots| ==> slots[i] != 0
    ensures i == |slots| ==> forall k | 0 <= k < |slots| :: slots[k] == 0
  {
    if slots == [] then 0
    else
      var k := FirstTaken(slots[..|slots| - 1]);
      if k < |slots| - 1 || slots[|slots| - 1] != 0 then k else |slots|
  }

  predicate InRoom(s: State, h: HostId) {
    && h in s.players && s.players[h].room.Some?
    && s.players[h].room.value < |s.rooms| && s.players[h].slot < SLOTS
  }

  predicate IsMaster(s: State, h: HostId) {
    InRoom(s, h) && s.rooms[s.players[h].room.value].master == s.players[h].slot
  }

  /** `find_room` */
  function FindRoom(s: State, channel: nat, number: nat): Option<RoomRef> {
    if number in s.listed && s.listed[number] < |s.rooms| && s.rooms[s.listed[number]].channel == channel
    then Some(s.listed[number]) else None
  }

  // --- Messages ----------------------------------------------------------------------------------

  function SendPlayer(s: State, h: HostId, m: RoomMessage): (t: State)
    ensures t.net.peers == s.net.peers
  {
    s.(net := Net.Send(s.net, h, Room(m)))
  }

  /** One message to each occupied slot in turn. */
  function SendSlots(n: Net.State, slots: seq<HostId>, m: RoomMessage, except: HostId): (t: Net.State)
    ensures t.peers == n.peers
  {
    if slots == [] then n
    else
      var rest := SendSlots(n, slots[..|slots| - 1], m, except);
      var host := slots[|slots| - 1];
      if host != 0 && host != except then Net.Send(rest, host, Room(m)) else rest
  }

  function SendRoom(s: State, r: RoomRef, m: RoomMessage, except: HostId): (t: State)
    requires r < |s.rooms|
    ensures t.net.peers == s.net.peers
  {
    s.(net := SendSlots(s.net, s.rooms[r].slots, m, except))
  }

  /** The member list of Enter_Room, taken from the player records. */
  function MembersOf(players: map<HostId, Player>, slots: seq<HostId>): seq<Member> {
    if slots == [] then []
    else
      var rest := MembersOf(players, slots[..|slots| - 1]);
      var host := slots[|slots| - 1];
      if host in players then rest + [Member(host, players[host].slot)] else rest
  }

  // --- Leaving -----------------------------------------------------------------------------------

  /** The player's seat, its room reference and its P2P membership go. */
  function Detach(s: State, h: HostId): (t: State)
    requires InRoom(s, h)
    ensures |t.rooms| == |s.rooms|
    ensures t.net.peers == s.net.peers
  {
    var p := s.players[h];
    var r := p.room.value;
    var room := s.rooms[r];
    s.(rooms := s.rooms[r := room.(slots := room.slots[p.slot := 0])],
       players := s.players[h := p.(room := None)],
       net := Net.LeaveGroup(s.net, room.group, h))
  }

  /** An empty room loses its P2P group and its place in the list. */
  function Disband(s: State, r: RoomRef): (t: State)
    requires r < |s.rooms|
    ensures t.net.peers == s.net.peers
  {
    s.(net := Net.DestroyGroup(s.net, s.rooms[r].group), listed := s.listed - {s.rooms[r].number})
  }

  /** The others are told, and the master moves to the first occupied slot if it was vacated. */
  function Announce(s: State, r: RoomRef, h: HostId, slot: nat): (t: State)
    requires r < |s.rooms|
    ensures |t.rooms| == |s.rooms|
    ensures t.net.peers == s.net.peers
  {
    var told := SendRoom(s, r, RoomDelUser(Member(h, slot)), 0);
    var room := told.rooms[r];
    if room.master != slot then told
    else
      var next := FirstTaken(room.slots);
      SendRoom(told.(rooms := told.rooms[r := room.(master := next)]), r, NewRoomMaster(next), 0)
  }

  function RemoveFromRoom(s: State, h: HostId, kicked: bool): (t: State)
    ensures |t.rooms| == |s.rooms|
    ensures t.net.peers == s.net.peers
  {
    if !InRoom(s, h) then s
    else
      var r := s.players[h].room.value;
      var slot := s.players[h].slot;
      var gone := Detach(s, h);
      var told := if kicked then SendPlayer(gone, h, KickedRoom) else gone;
      if PlayerCount(told.rooms[r].slots) == 0 then Disband(told, r) else Announce(told, r, h, slot)
  }

  // --- Entering ----------------------------------------------------------------------------------

  function Seat(s: State, h: HostId, r: RoomRef, slot: nat): (t: State)
    requires h in s.players && r < |s.rooms| && slot < SLOTS
    ensures |t.rooms| == |s.rooms|
    ensures t.net.peers == s.net.peers
  {
    s.(rooms := s.rooms[r := s.rooms[r].(slots := s.rooms[r].slots[slot := h])],
       players := s.players[h := s.players[h].(room := Some(r), slot := slot)])
  }

  function Welcome(s: State, h: HostId, r: RoomRef, slot: nat): (t: State)
    requires r < |s.rooms|
    ensures t == s.(net := t.net)
    ensures t.net.peers == s.net.peers
  {
    var room := s.rooms[r];
    var entered := SendPlayer(s, h, EnterRoom(MembersOf(s.players, room.slots), room.master, room.closed, OK));
    var told := SendRoom(entered, r, RoomAddUser(Member(h, slot)), h);
    told.(net := Net.JoinGroup(told.net, room.group, h))
  }

  function JoinRoom(s: State, h: HostId, r: RoomRef): (t: State)
    requires h in s.players && r < |s.rooms|
    ensures t.net.peers == s.net.peers
  {
    var out := RemoveFromRoom(s, h, false);
    var slot := FreeSlot(out.rooms[r]);
    if slot.None? || h !in out.players then out
    else Welcome(Seat(out, h, r, slot.value), h, r, slot.value)
  }

  /** The first number from `n` on, wrapping at 2^16, that is neither 0 nor in use. */
  function FreeNumber(used: set<nat>, n: nat, k: nat): nat
    decreases NUMBERS - k
  {
    var candidate := (n + k) % NUMBERS;
    if k >= NUMBERS then 0
    else if candidate in used || candidate == 0 then FreeNumber(used, n, k + 1)
    else candidate
  }

  /** Some number is left for a new room. */
  predicate HasNumber(used: set<nat>) { exists c | 0 < c < NUMBERS :: c !in used }

  function ClampMax(max: nat): nat { if max == 0 || max > SLOTS then SLOTS else max }

  /** A new room object with its own P2P group, listed, with `h` in slot 0 as master. */
  function OpenRoom(s: State, h: HostId, max: nat, password: string): (t: State)
    requires h in s.players
    ensures t.net.peers == s.net.peers
  {
    var number := FreeNumber(s.listed.Keys, s.nextNumber, 0);
    var group := Net.AllocatedId(s.net);
    var room :=
      RoomData(number, s.players[h].channel, ClampMax(max), password, NO_SEATS[0 := h], ALL_OPEN, 0, group, false);
    var r := |s.rooms|;
    s.(rooms := s.rooms + [room],
       listed := s.listed[number := r],
       nextNumber := (number + 1) % NUMBERS,
       players := s.players[h := s.players[h].(room := Some(r), slot := 0)],
       net := Net.JoinGroup(Net.CreateGroup(s.net), group, h))
  }

  function CreateRoomFor(s: State, h: HostId, max: nat, password: string): (t: State)
    requires h in s.players
    ensures t.net.peers == s.net.peers
  {
    if s.players[h].channel == NO_CHANNEL then SendPlayer(s, h, CreateRoom(FAILED))
    else
      var out := RemoveFromRoom(s, h, false);
      if h !in out.players then out else SendPlayer(OpenRoom(out, h, max, password), h, CreateRoom(OK))
  }

  /** Where a request to enter a room leads, or the code it is refused with. */
  datatype Entry = Into(room: RoomRef) | Refused(code: nat)

  function EnterOutcome(s: State, channel: nat, number: nat, password: string): (e: Entry)
    ensures e.Into? ==> e.room < |s.rooms|
  {
    match FindRoom(s, channel, number)
    case None => Refused(FAILED)
    case Some(r) =>
      if s.rooms[r].playing then Refused(PLAYING)
      else if s.rooms[r].password != "" && s.rooms[r].password != password then Refused(WRONG_PASSWORD)
      else if FreeSlot(s.rooms[r]).None? then Refused(FULL)
      else Into(r)
  }

  predicate OpenToAll(s: State, channel: nat, number: nat) {
    && number in s.listed && s.listed[number] < |s.rooms|
    && var room := s.rooms[s.listed[number]];
       room.channel == channel && !room.playing && room.password == "" && FreeSlot(room).Some?
  }

  /** The lowest-numbered room of the channel that anybody may enter. */
  function QuickOutcome(s: State, channel: nat): (e: Entry)
    ensures e.Into? ==> e.room < |s.rooms|
  {
    var fits := set number | number in s.listed && OpenToAll(s, channel, number);
    if fits == {} then Refused(FAILED) else Into(s.listed[Min(fits)])
  }

  function Follow(s: State, h: HostId, e: Entry): (t: State)
    requires h in s.players && (e.Into? ==> e.room < |s.rooms|)
    ensures t.net.peers == s.net.peers
  {
    match e
    case Into(r) => JoinRoom(s, h, r)
    case Refused(code) => SendPlayer(s, h, EnterRoom([], 0, ALL_OPEN, code))
  }

  // --- Requests of a logged-in player ------------------------------------------------------------

  datatype Request =
    | Logout
    | EnterLobby
    | EnterChannel(channel: nat)
    | LeaveChannel
    | ChangeChannel(channel: nat)
    | MakeRoom(maxPlayers: nat, password: string)
    | VisitRoom(number: nat, password: string)
    | QuickJoin
    | QuitRoom
    | Kick(slot: nat)
    | ShutSlot(slot: nat)
    | UnshutSlot(slot: nat)
    | Start
    | GotoWaitRoom
    | GmCloseRoom
    | GmKick(name: string)

  function SetChannel(s: State, h: HostId, channel: nat): (t: State)
    ensures t.net.peers == s.net.peers
  {
    if h in s.players then s.(players := s.players[h := s.players[h].(channel := channel)]) else s
  }

  function SetClosed(s: State, r: RoomRef, slot: nat, shut: bool): (t: State)
    requires r < |s.rooms| && slot < SLOTS
    ensures t.net.peers == s.net.peers
  {
    s.(rooms := s.rooms[r := s.rooms[r].(closed := s.rooms[r].closed[slot := shut])])
  }

  function SetPlaying(s: State, r: RoomRef, playing: bool): (t: State)
    requires r < |s.rooms|
    ensures t.net.peers == s.net.peers
  {
    s.(rooms := s.rooms[r := s.rooms[r].(playing := playing)])
  }

  function KickSlot(s: State, h: HostId, slot: nat): (t: State)
    ensures t.net.peers == s.net.peers
  {
    if !IsMaster(s, h) || slot >= SLOTS || slot == s.players[h].slot then s
    else
      var target := s.rooms[s.players[h].room.value].slots[slot];
      if target in s.players then RemoveFromRoom(s, target, true) else s
  }

  /** Whom a GM command removes: everyone but the caller, or whoever bears the name. */
  predicate GmRemoves(s: State, h: HostId, name: Option<string>, target: HostId) {
    target in s.players && if name.None? then target != h else s.players[target].name == name.value
  }

  /** Nobody else is in the room `h` is in. */
  predicate Alone(s: State, h: HostId) {
    InRoom(s, h) && PlayerCount(s.rooms[s.players[h].room.value].slots[s.players[h].slot := 0]) == 0
  }

  /** A GM alone in its room kicks itself by name from a slot other than the last: the room goes while its slots are
      still being read. */
  predicate KicksItselfOut(s: State, h: HostId, name: string) {
    Alone(s, h) && s.players[h].name == name && s.players[h].slot + 1 < SLOTS
  }

  predicate SweepDefined(s: State, h: HostId, name: Option<string>) {
    name.Some? ==> !KicksItselfOut(s, h, name.value)
  }

  /** The sweep at one slot of `r`, as the table stands then. */
  function SweepOne(s: State, h: HostId, r: RoomRef, name: Option<string>, i: nat): (t: State)
    requires r < |s.rooms| && i < SLOTS
    ensures |t.rooms| == |s.rooms| && t.net.peers == s.net.peers
  {
    var target := s.rooms[r].slots[i];
    if GmRemoves(s, h, name, target) then RemoveFromRoom(s, target, true) else s
  }

  /** The sweep after the first `n` slots. */
  function GmSweep(s: State, h: HostId, r: RoomRef, name: Option<string>, n: nat): (t: State)
    requires r < |s.rooms| && n <= SLOTS
    ensures |t.rooms| == |s.rooms| && t.net.peers == s.net.peers
  {
    if n == 0 then s else SweepOne(GmSweep(s, h, r, name, n - 1), h, r, name, n - 1)
  }

  /** Requests that have an outcome: the search for a room number ends, and no released room is read. */
  predicate Defined(s: State, h: HostId, q: Request)
    requires h in s.players
  {
    match q
    case MakeRoom(_, _) =>
      s.players[h].channel == NO_CHANNEL || HasNumber(RemoveFromRoom(s, h, false).listed.Keys)
    case GmKick(name) => SweepDefined(s, h, Some(name))
    case _ => true
  }

  function Handle(s: State, h: HostId, q: Request): (t: State)
    requires h in s.players
    ensures t.net.peers == s.net.peers
  {
    match q
    case Logout => SendPlayer(RemoveFromRoom(s, h, false), h, Answer(LOGOUT_OK, OK))
    case EnterLobby =>
      SendPlayer(SetChannel(RemoveFromRoom(s, h, false), h, NO_CHANNEL), h, Answer(ENTER_LOBBY, OK))
    case EnterChannel(channel) =>
      if channel >= CHANNELS then SendPlayer(s, h, Answer(ENTER_CHANNEL, FAILED))
      else SendPlayer(SetChannel(s, h, channel), h, Answer(ENTER_CHANNEL, OK))
    case LeaveChannel =>
      SendPlayer(SetChannel(RemoveFromRoom(s, h, false), h, NO_CHANNEL), h, Answer(LEAVE_CHANNEL, OK))
    case ChangeChannel(channel) =>
      if channel >= CHANNELS then SendPlayer(s, h, Answer(CHANGE_CHANNEL, FAILED))
      else SendPlayer(SetChannel(RemoveFromRoom(s, h, false), h, channel), h, Answer(CHANGE_CHANNEL, OK))
    case MakeRoom(max, password) => CreateRoomFor(s, h, max, password)
    case VisitRoom(number, password) => Follow(s, h, EnterOutcome(s, s.players[h].channel, number, password))
    case QuickJoin => Follow(s, h, QuickOutcome(s, s.players[h].channel))
    case QuitRoom =>
      if s.players[h].room.None? then SendPlayer(s, h, LeaveRoom(FAILED))
      else SendPlayer(RemoveFromRoom(s, h, false), h, LeaveRoom(OK))
    case Kick(slot) => KickSlot(s, h, slot)
    case ShutSlot(slot) =>
      if !IsMaster(s, h) || slot >= SLOTS || s.rooms[s.players[h].room.value].slots[slot] != 0 then s
      else
        var r := s.players[h].room.value;
        SendRoom(SetClosed(s, r, slot, true), r, CloseSlot(slot), 0)
    case UnshutSlot(slot) =>
      if !IsMaster(s, h) || slot >= SLOTS then s
      else
        var r := s.players[h].room.value;
        SendRoom(SetClosed(s, r, slot, false), r, OpenSlot(slot), 0)
    case Start =>
      if !IsMaster(s, h) then s
      else
        var r := s.players[h].room.value;
        SendRoom(SetPlaying(s, r, true), r, StartGame, 0)
    case GotoWaitRoom => if InRoom(s, h) then SetPlaying(s, s.players[h].room.value, false) else s
    case GmCloseRoom => if InRoom(s, h) then GmSweep(s, h, s.players[h].room.value, None, SLOTS) else s
    case GmKick(name) => if InRoom(s, h) then GmSweep(s, h, s.players[h].room.value, Some(name), SLOTS) else s
  }

  // --- Connections -------------------------------------------------------------------------------

  /** `on_client_leave` */
  function ClientLeave(s: State, h: HostId): State {
    if h !in s.players then s
    else
      var out := RemoveFromRoom(s, h, false);
      out.(players := out.players - {h})
  }

  /** `peer::close`: the phase changes first, then the game is told, then the peer and its id go. */
  function Close(s: State, h: HostId): State {
    if h !in s.net.peers || s.net.peers[h].Closed? then s
    else
      var closing := s.(net := Net.SetPhase(s.net, h, Closed));
      var out := if s.net.peers[h].Connected? then ClientLeave(closing, h) else closing;
      out.(net := Net.PeerClosed(out.net, h))
  }

  /** Other connections logged in under the same account. */
  function OtherSessions(s: State, h: HostId, user: string): set<HostId> {
    set x | x in s.players && x != h && s.players[x].name == user && x in s.net.peers
  }

  /** A login that succeeded drops an older session of the account and starts a fresh record. */
  function Logon(s: State, h: HostId, user: Option<string>): State {
    match user
    case None => SendPlayer(s, h, Answer(LOGON_ANSWER, FAILED))
    case Some(name) =>
      var others := OtherSessions(s, h, name);
      var alone := if others == {} then s
                   else Close(SendPlayer(s, Min(others), Answer(FORCED_CLOSE, 2)), Min(others));
      SendPlayer(alone.(players := alone.players[h := Player(name, NO_CHANNEL, None, 0)]), h, Answer(LOGON_ANSWER, OK))
  }

  // --- Steps -------------------------------------------------------------------------------------

  /** Everything that can happen to the server, one event-loop callback at a time. */
  datatype Step =
    | Accepted
    | PublicKey(host: HostId, valid: bool)
    | ConnectionRequest(host: HostId, versionMatches: bool)
    | Disconnected(host: HostId)
    | LogonRequest(host: HostId, user: Option<string>)
    | PlayerRequest(host: HostId, request: Request)

  predicate InPhase(s: State, h: HostId, phase: Phase) {
    h in s.net.peers && s.net.peers[h] == phase
  }

  predicate DefinedStep(s: State, step: Step) {
    step.PlayerRequest? && InPhase(s, step.host, Connected) && step.host in s.players ==>
      Defined(s, step.host, step.request)
  }

  function Apply(s: State, step: Step): State {
    match step
    case Accepted => s.(net := Net.Accept(s.net))
    case PublicKey(h, valid) =>
      if !InPhase(s, h, AwaitingPublicKey) then s
      else if valid then s.(net := Net.SetPhase(s.net, h, AwaitingConnectionRequest))
      else Close(s, h)
    case ConnectionRequest(h, matches) =>
      if !InPhase(s, h, AwaitingConnectionRequest) then s
      else if matches then s.(net := Net.SetPhase(s.net, h, Connected))
      else Close(s, h)
    case Disconnected(h) => Close(s, h)
    case LogonRequest(h, user) => if InPhase(s, h, Connected) then Logon(s, h, user) else s
    case PlayerRequest(h, q) => if InPhase(s, h, Connected) && h in s.players then Handle(s, h, q) else s
  }
}
