/**
  The state the ProudNet server keeps about its clients: the peer table, the P2P groups, the shared
  host-id allocator, and what has been written to each client so far.  Operations are functions on
  that state; class `NetServer` carries them out in place.
 */
module Net {
  import opened Hosts
  import opened Phases

  const FIRST_CLIENT: HostId := 3
  const SKIPPED: HostId := 50
  const ID_SPACE: nat := 0x1_0000_0000

  datatype State = State(
    peers: map<HostId, Phase>,
    groups: map<HostId, set<HostId>>,
    free: set<HostId>,
    next: nat,
    inbox: map<HostId, seq<Packet>>)

  const INIT := State(map[], map[], {}, FIRST_CLIENT, map[])

  predicate IsConnected(n: State, h: HostId) {
    h in n.peers && n.peers[h].Connected?
  }

  // --- Host ids ----------------------------------------------------------------------------------

  /** `m_next_id++` on 32 bits. */
  function Bump(next: nat): nat { if next + 1 == ID_SPACE then 0 else next + 1 }

  /** The id handed out next, and the allocator left behind. */
  function AllocatedId(n: State): HostId {
    if n.free != {} then Min(n.free) else if n.next == SKIPPED then Bump(n.next) else n.next
  }

  function Allocate(n: State): (t: State)
    ensures t.peers == n.peers
  {
    if n.free != {} then n.(free := n.free - {Min(n.free)})
    else if n.next == SKIPPED then n.(next := Bump(Bump(n.next)))
    else n.(next := Bump(n.next))
  }

  /** The allocator can issue an id without its counter wrapping. */
  predicate HasId(n: State) { n.free != {} || n.next + 1 < ID_SPACE }

  function Release(n: State, id: HostId): State {
    n.(free := n.free + {id})
  }

  // --- Sending -----------------------------------------------------------------------------------

  /** `server::send`: only a connected peer receives anything. */
  function Send(n: State, to: HostId, p: Packet): (t: State)
    ensures t.peers == n.peers
  {
    if IsConnected(n, to) && to in n.inbox then n.(inbox := n.inbox[to := n.inbox[to] + [p]]) else n
  }

  function SendAll(n: State, to: HostId, ps: seq<Packet>): (t: State)
    ensures t.peers == n.peers
  {
    if ps == [] then n else Send(SendAll(n, to, ps[..|ps| - 1]), to, ps[|ps| - 1])
  }

  /** One copy of `p` to every connected host in `to`. */
  function Broadcast(n: State, to: set<HostId>, p: Packet): (t: State)
    ensures t.peers == n.peers
  {
    n.(inbox := map h | h in n.inbox :: if h in to && IsConnected(n, h) then n.inbox[h] + [p] else n.inbox[h])
  }

  // --- Connections -------------------------------------------------------------------------------

  function Accept(n: State): State {
    var id := AllocatedId(n);
    var a := Allocate(n);
    a.(peers := a.peers[id := AwaitingPublicKey], inbox := a.inbox[id := []])
  }

  function SetPhase(n: State, h: HostId, phase: Phase): State {
    if h in n.peers then n.(peers := n.peers[h := phase]) else n
  }

  /** `server::on_peer_closed` */
  function PeerClosed(n: State, h: HostId): State {
    var l := LeaveEach(n, Ascending(n.groups.Keys), h);
    Release(l.(peers := l.peers - {h}, inbox := l.inbox - {h}), h)
  }

  // --- P2P groups --------------------------------------------------------------------------------

  function CreateGroup(n: State): (t: State)
    ensures t.peers == n.peers
  {
    var g := AllocatedId(n);
    var a := Allocate(n);
    a.(groups := a.groups[g := {}])
  }

  function JoinPackets(g: HostId, members: seq<HostId>): (ps: seq<Packet>)
    ensures |ps| == |members|
  {
    seq(|members|, i requires 0 <= i < |members| => GroupJoin(g, members[i]))
  }

  /** `server::join_p2p_group`: the newcomer hears of every member, itself included; the others hear of it. */
  function JoinGroup(n: State, g: HostId, m: HostId): (t: State)
    ensures t.peers == n.peers
  {
    if g !in n.groups || m !in n.peers || m in n.groups[g] then n
    else
      var members := n.groups[g] + {m};
      var joined := n.(groups := n.groups[g := members]);
      SendAll(Broadcast(joined, members - {m}, GroupJoin(g, m)), m, JoinPackets(g, Ascending(members)))
  }

  /** `server::leave_p2p_group` */
  function LeaveGroup(n: State, g: HostId, m: HostId): (t: State)
    ensures t.peers == n.peers
  {
    if g !in n.groups || m !in n.groups[g] then n
    else
      var members := n.groups[g] - {m};
      var left := n.(groups := n.groups[g := members]);
      Send(Broadcast(left, members, GroupLeave(g, m)), m, GroupLeave(g, m))
  }

  /** `m` leaves every group of `gs`, in order. */
  function LeaveEach(n: State, gs: seq<HostId>, m: HostId): (t: State)
    ensures t.peers == n.peers
  {
    if gs == [] then n else LeaveGroup(LeaveEach(n, gs[..|gs| - 1], m), gs[|gs| - 1], m)
  }

  /** Every host of `ms` leaves `g`, in order. */
  function EvictEach(n: State, g: HostId, ms: seq<HostId>): (t: State)
    ensures t.peers == n.peers
  {
    if ms == [] then n else LeaveGroup(EvictEach(n, g, ms[..|ms| - 1]), g, ms[|ms| - 1])
  }

  /** `server::destroy_p2p_group` */
  function DestroyGroup(n: State, g: HostId): (t: State)
    ensures t.peers == n.peers
  {
    if g !in n.groups then n
    else
      var e := EvictEach(n, g, Ascending(n.groups[g]));
      Release(e.(groups := e.groups - {g}), g)
  }

  // --- What a client knows about a group ---------------------------------------------------------

  /** One notification folded into the client's member set of group `g`; a client that left forgets it. */
  function ApplyToGroup(self: HostId, g: HostId, view: set<HostId>, p: Packet): set<HostId> {
    match p
    case GroupJoin(g', m) => if g' == g then view + {m} else view
    case GroupLeave(g', m) => if g' != g then view else if m == self then {} else view - {m}
    case _ => view
  }

  function GroupView(self: HostId, g: HostId, log: seq<Packet>): set<HostId> {
    if log == [] then {} else ApplyToGroup(self, g, GroupView(self, g, log[..|log| - 1]), log[|log| - 1])
  }

  lemma GroupViewAppend(self: HostId, g: HostId, log: seq<Packet>, p: Packet)
    ensures GroupView(self, g, log + [p]) == ApplyToGroup(self, g, GroupView(self, g, log), p)
  {
    assert (log + [p])[..|log|] == log;
  }

  /** The member set the server holds, as far as it concerns client `c`. */
  function Membership(n: State, c: HostId, g: HostId): set<HostId> {
    if g in n.groups && c in n.groups[g] then n.groups[g] else {}
  }

  // --- Invariant ---------------------------------------------------------------------------------

  /** Whether a counter standing at `next` has ever handed out `id`. */
  predicate WasIssued(next: nat, id: HostId) { FIRST_CLIENT <= id < next && id != SKIPPED }

  function Issued(next: nat): set<HostId> {
    set id | FIRST_CLIENT <= id < next && WasIssued(next, id)
  }

  predicate InUse(n: State, id: HostId) { id in n.peers || id in n.groups || id in n.free }

  /** Live clients, live groups and free ids partition the issued ids. */
  ghost predicate IdsConserved(n: State) {
    && FIRST_CLIENT <= n.next < ID_SPACE
    && n.next != SKIPPED + 1
    && n.peers.Keys !! n.groups.Keys
    && n.peers.Keys !! n.free
    && n.groups.Keys !! n.free
    && forall id :: InUse(n, id) <==> WasIssued(n.next, id)
  }

  predicate HasJoined(n: State, h: HostId) {
    h in n.peers && (n.peers[h].Connected? || n.peers[h].Closed?)
  }

  ghost predicate MembersKnown(n: State) {
    forall g, m | g in n.groups && m in n.groups[g] :: m in n.peers
  }

  predicate InGroup(n: State, h: HostId) { exists g | g in n.groups :: h in n.groups[g] }

  ghost predicate SilentBeforeJoin(n: State) {
    && n.inbox.Keys == n.peers.Keys
    && forall h | h in n.peers && !HasJoined(n, h) :: n.inbox[h] == []
  }

  /** The notice names hosts of 32 bits. */
  predicate InSpace(p: Packet) {
    match p
    case GroupJoin(g, m) => g < ID_SPACE && m < ID_SPACE
    case GroupLeave(g, m) => g < ID_SPACE && m < ID_SPACE
    case _ => true
  }

  ghost predicate LogsInSpace(n: State) {
    forall h, i | h in n.inbox && 0 <= i < |n.inbox[h]| :: InSpace(n.inbox[h][i])
  }

  /** Replication: every connected client's folded view of every group is the server's member set. */
  ghost predicate GroupViewsExact(n: State)
    requires n.inbox.Keys == n.peers.Keys
  {
    forall c, g | IsConnected(n, c) :: GroupView(c, g, n.inbox[c]) == Membership(n, c, g)
  }

  ghost predicate Inv(n: State) {
    && IdsConserved(n)
    && MembersKnown(n)
    && SilentBeforeJoin(n)
    && LogsInSpace(n)
    && GroupViewsExact(n)
  }

  function Live(n: State): nat { |n.peers| + |n.groups| }

  // --- Sending keeps the invariant ---------------------------------------------------------------

  predicate IsGroupPacket(p: Packet) { p.GroupJoin? || p.GroupLeave? }

  /** What one client makes of a broadcast. */
  lemma BroadcastView(n: State, to: set<HostId>, p: Packet, c: HostId, g: HostId)
    requires IsConnected(n, c) && c in n.inbox
    ensures GroupView(c, g, Broadcast(n, to, p).inbox[c]) ==
            if c in to then ApplyToGroup(c, g, GroupView(c, g, n.inbox[c]), p) else GroupView(c, g, n.inbox[c])
  {
    GroupViewAppend(c, g, n.inbox[c], p);
  }

  lemma SendIsBroadcast(n: State, to: HostId, p: Packet)
    ensures Send(n, to, p) == Broadcast(n, {to}, p)
  {
    assert Send(n, to, p).inbox == Broadcast(n, {to}, p).inbox;
  }

  lemma BroadcastInSpace(n: State, to: set<HostId>, p: Packet)
    requires LogsInSpace(n) && InSpace(p)
    ensures LogsInSpace(Broadcast(n, to, p))
  {
    hide InSpace;
  }

  /** Ids in use have 32 bits. */
  lemma UsedInSpace(n: State, id: HostId)
    requires IdsConserved(n) && InUse(n, id)
    ensures id < ID_SPACE
  {
    assert WasIssued(n.next, id);
  }

  /** Traffic other than membership notices disturbs nothing. */
  lemma BroadcastKeepsInv(n: State, to: set<HostId>, p: Packet)
    requires Inv(n) && !IsGroupPacket(p)
    ensures Inv(Broadcast(n, to, p))
  {
    var b := Broadcast(n, to, p);
    BroadcastInSpace(n, to, p);
    forall c, g | IsConnected(b, c) ensures GroupView(c, g, b.inbox[c]) == Membership(b, c, g) {
      BroadcastView(n, to, p, c, g);
    }
  }

  // --- Group operations keep the invariant -------------------------------------------------------

  lemma {:induction false} SendAllEffect(n: State, to: HostId, ps: seq<Packet>)
    ensures var s := SendAll(n, to, ps);
            && s == n.(inbox := s.inbox)
            && s.inbox.Keys == n.inbox.Keys
            && forall h | h in n.inbox ::
                 s.inbox[h] == if h == to && IsConnected(n, h) then n.inbox[h] + ps else n.inbox[h]
  {
    if ps != [] {
      var init := ps[..|ps| - 1];
      SendAllEffect(n, to, init);
      assert ps == init + [ps[|ps| - 1]];
      if IsConnected(n, to) && to in n.inbox {
        assert n.inbox[to] + ps == n.inbox[to] + init + [ps[|ps| - 1]];
      }
    }
  }

  /** Hearing of `members` one by one adds exactly them. */
  lemma {:induction false} GroupViewOfJoins(self: HostId, g: HostId, log: seq<Packet>, h: HostId, members: seq<HostId>)
    ensures GroupView(self, g, log + JoinPackets(h, members)) ==
            GroupView(self, g, log) + if g == h then SetOf(members) else {}
  {
    var ps := JoinPackets(h, members);
    if members == [] {
      assert log + ps == log;
    } else {
      var k := |members| - 1;
      GroupViewOfJoins(self, g, log, h, members[..k]);
      assert log + ps == log + JoinPackets(h, members[..k]) + [GroupJoin(h, members[k])];
      GroupViewAppend(self, g, log + JoinPackets(h, members[..k]), GroupJoin(h, members[k]));
      assert members == members[..k] + [members[k]];
      SetOfAppend(members[..k], members[k]);
    }
  }

  /** Everything but the logs after a join. */
  lemma JoinShape(n: State, g: HostId, m: HostId)
    ensures var j := JoinGroup(n, g, m);
            && j.peers == n.peers && j.free == n.free && j.next == n.next && j.inbox.Keys == n.inbox.Keys
            && j.groups == (if g in n.groups && m in n.peers then n.groups[g := n.groups[g] + {m}] else n.groups)
            && forall h | h in n.inbox && !IsConnected(n, h) :: j.inbox[h] == n.inbox[h]
  {
    if g in n.groups && m in n.peers {
      if m in n.groups[g] {
        assert n.groups[g] + {m} == n.groups[g];
      } else {
        var members := n.groups[g] + {m};
        var told := Broadcast(n.(groups := n.groups[g := members]), members - {m}, GroupJoin(g, m));
        SendAllEffect(told, m, JoinPackets(g, Ascending(members)));
      }
    }
  }

  /** The log of one client after a join. */
  lemma JoinLog(n: State, g: HostId, m: HostId, c: HostId)
    requires n.inbox.Keys == n.peers.Keys && IsConnected(n, c)
    requires g in n.groups && m in n.peers && m !in n.groups[g]
    ensures c in JoinGroup(n, g, m).inbox
    ensures JoinGroup(n, g, m).inbox[c] ==
            n.inbox[c] + (if c == m then JoinPackets(g, Ascending(n.groups[g] + {m}))
                          else if c in n.groups[g] then [GroupJoin(g, m)] else [])
  {
    var members := n.groups[g] + {m};
    var told := Broadcast(n.(groups := n.groups[g := members]), members - {m}, GroupJoin(g, m));
    SendAllEffect(told, m, JoinPackets(g, Ascending(members)));
  }

  lemma JoinView(n: State, g: HostId, m: HostId, c: HostId, g': HostId)
    requires n.inbox.Keys == n.peers.Keys && IsConnected(n, c)
    requires GroupView(c, g', n.inbox[c]) == Membership(n, c, g')
    ensures c in JoinGroup(n, g, m).inbox
    ensures GroupView(c, g', JoinGroup(n, g, m).inbox[c]) == Membership(JoinGroup(n, g, m), c, g')
  {
    hide JoinGroup, GroupView;
    if g in n.groups && m in n.peers && m !in n.groups[g] {
      JoinShape(n, g, m);
      JoinLog(n, g, m, c);
      if c == m {
        HearsOfAll(c, g', n.inbox[c], g, n.groups[g] + {m});
      } else if c in n.groups[g] {
        GroupViewAppend(c, g', n.inbox[c], GroupJoin(g, m));
      } else {
        assert JoinGroup(n, g, m).inbox[c] == n.inbox[c];
      }
    } else {
      JoinNothing(n, g, m);
    }
  }

  lemma HearsOfAll(c: HostId, g': HostId, log: seq<Packet>, g: HostId, members: set<HostId>)
    ensures GroupView(c, g', log + JoinPackets(g, Ascending(members))) ==
            GroupView(c, g', log) + if g' == g then members else {}
  {
    hide GroupView, Ascending;
    GroupViewOfJoins(c, g', log, g, Ascending(members));
    AscendingCovers(members);
  }

  lemma JoinNothing(n: State, g: HostId, m: HostId)
    requires !(g in n.groups && m in n.peers && m !in n.groups[g])
    ensures JoinGroup(n, g, m) == n
  {
  }

  lemma JoinInSpace(n: State, g: HostId, m: HostId)
    requires IdsConserved(n) && MembersKnown(n) && LogsInSpace(n)
    ensures LogsInSpace(JoinGroup(n, g, m))
  {
    hide InSpace, Ascending;
    if g in n.groups && m in n.peers && m !in n.groups[g] {
      var members := n.groups[g] + {m};
      var joined := n.(groups := n.groups[g := members]);
      var told := Broadcast(joined, members - {m}, GroupJoin(g, m));
      var ps := JoinPackets(g, Ascending(members));
      NoticeInSpace(n, g, m);
      BroadcastInSpace(joined, members - {m}, GroupJoin(g, m));
      SendAllEffect(told, m, ps);
      AscendingCovers(members);
      forall i | 0 <= i < |ps| ensures InSpace(ps[i]) {
        assert Ascending(members)[i] in SetOf(Ascending(members));
        NoticeInSpace(n, g, Ascending(members)[i]);
      }
    }
  }

  lemma NoticeInSpace(n: State, g: HostId, m: HostId)
    requires IdsConserved(n) && g in n.groups && m in n.peers
    ensures InSpace(GroupJoin(g, m)) && InSpace(GroupLeave(g, m))
  {
    hide IdsConserved;
    UsedInSpace(n, g);
    UsedInSpace(n, m);
  }

  lemma LeaveInSpace(n: State, g: HostId, m: HostId)
    requires IdsConserved(n) && MembersKnown(n) && LogsInSpace(n)
    ensures LogsInSpace(LeaveGroup(n, g, m))
  {
    hide InSpace, IdsConserved, LogsInSpace;
    if g in n.groups && m in n.groups[g] {
      var members := n.groups[g] - {m};
      var left := n.(groups := n.groups[g := members]);
      SameLogs(n, left);
      NoticeInSpace(n, g, m);
      BroadcastInSpace(left, members, GroupLeave(g, m));
      BroadcastInSpace(Broadcast(left, members, GroupLeave(g, m)), {m}, GroupLeave(g, m));
      SendIsBroadcast(Broadcast(left, members, GroupLeave(g, m)), m, GroupLeave(g, m));
    }
  }

  lemma SameLogs(n: State, t: State)
    requires LogsInSpace(n) && t.inbox == n.inbox
    ensures LogsInSpace(t)
  {
  }

  lemma JoinKeepsInv(n: State, g: HostId, m: HostId)
    requires Inv(n)
    ensures Inv(JoinGroup(n, g, m))
  {
    hide LogsInSpace, JoinGroup, GroupView;
    var j := JoinGroup(n, g, m);
    JoinShape(n, g, m);
    JoinInSpace(n, g, m);
    forall g', h | g' in j.groups && h in j.groups[g'] ensures h in j.peers {
      assert h == m || h in n.groups[g'];
    }
    forall h | h in j.peers && !HasJoined(j, h) ensures j.inbox[h] == [] {
      assert h in n.inbox && !HasJoined(n, h);
    }
    forall c, g' | IsConnected(j, c) ensures GroupView(c, g', j.inbox[c]) == Membership(j, c, g') {
      assert IsConnected(n, c);
      JoinView(n, g, m, c, g');
    }
  }

  lemma LeaveShape(n: State, g: HostId, m: HostId)
    ensures var l := LeaveGroup(n, g, m);
            && l.peers == n.peers && l.free == n.free && l.next == n.next && l.inbox.Keys == n.inbox.Keys
            && l.groups == (if g in n.groups then n.groups[g := n.groups[g] - {m}] else n.groups)
            && forall h | h in n.inbox && !IsConnected(n, h) :: l.inbox[h] == n.inbox[h]
  {
    if g in n.groups && m !in n.groups[g] {
      assert n.groups[g] - {m} == n.groups[g];
    }
  }

  lemma LeaveView(n: State, g: HostId, m: HostId, c: HostId, g': HostId)
    requires n.inbox.Keys == n.peers.Keys && IsConnected(n, c)
    requires GroupView(c, g', n.inbox[c]) == Membership(n, c, g')
    ensures c in LeaveGroup(n, g, m).inbox
    ensures GroupView(c, g', LeaveGroup(n, g, m).inbox[c]) == Membership(LeaveGroup(n, g, m), c, g')
  {
    if g in n.groups && m in n.groups[g] {
      var members := n.groups[g] - {m};
      var left := n.(groups := n.groups[g := members]);
      var told := Broadcast(left, members, GroupLeave(g, m));
      BroadcastView(left, members, GroupLeave(g, m), c, g');
      BroadcastView(told, {m}, GroupLeave(g, m), c, g');
      SendIsBroadcast(told, m, GroupLeave(g, m));
    }
  }

  lemma LeaveKeepsInv(n: State, g: HostId, m: HostId)
    requires Inv(n)
    ensures Inv(LeaveGroup(n, g, m))
  {
    hide LogsInSpace, LeaveGroup, GroupView;
    var l := LeaveGroup(n, g, m);
    LeaveShape(n, g, m);
    LeaveInSpace(n, g, m);
    forall g', h | g' in l.groups && h in l.groups[g'] ensures h in l.peers { assert h in n.groups[g']; }
    forall h | h in l.peers && !HasJoined(l, h) ensures l.inbox[h] == [] {
      assert h in n.inbox && !HasJoined(n, h);
    }
    forall c, g' | IsConnected(l, c) ensures GroupView(c, g', l.inbox[c]) == Membership(l, c, g') {
      assert IsConnected(n, c);
      LeaveView(n, g, m, c, g');
    }
  }

  lemma {:induction false} EvictShape(n: State, g: HostId, ms: seq<HostId>)
    requires g in n.groups
    ensures var e := EvictEach(n, g, ms);
            && e.peers == n.peers && e.free == n.free && e.next == n.next
            && e.groups == n.groups[g := n.groups[g] - SetOf(ms)]
  {
    if ms == [] {
      assert n.groups[g] - SetOf(ms) == n.groups[g];
    } else {
      var k := |ms| - 1;
      EvictShape(n, g, ms[..k]);
      LeaveShape(EvictEach(n, g, ms[..k]), g, ms[k]);
      assert ms == ms[..k] + [ms[k]];
      SetOfAppend(ms[..k], ms[k]);
      assert n.groups[g] - SetOf(ms) == n.groups[g] - SetOf(ms[..k]) - {ms[k]};
    }
  }

  lemma {:induction false} EvictKeepsInv(n: State, g: HostId, ms: seq<HostId>)
    requires Inv(n) && g in n.groups
    ensures Inv(EvictEach(n, g, ms))
  {
    if ms != [] {
      EvictKeepsInv(n, g, ms[..|ms| - 1]);
      LeaveKeepsInv(EvictEach(n, g, ms[..|ms| - 1]), g, ms[|ms| - 1]);
    }
  }

  /** Everything but the logs after a group is gone. */
  lemma DestroyShape(n: State, g: HostId)
    ensures var d := DestroyGroup(n, g);
            && d.peers == n.peers && d.next == n.next && d.groups == n.groups - {g}
            && d.free == if g in n.groups then n.free + {g} else n.free
  {
    if g in n.groups {
      EvictShape(n, g, Ascending(n.groups[g]));
      assert DestroyGroup(n, g).groups == n.groups - {g};
    } else {
      assert n.groups - {g} == n.groups;
    }
  }

  lemma DestroyKeepsIds(n: State, g: HostId)
    requires IdsConserved(n)
    ensures IdsConserved(DestroyGroup(n, g))
  {
    DestroyShape(n, g);
    assert forall x :: InUse(DestroyGroup(n, g), x) <==> InUse(n, x);
  }

  lemma DestroyKeepsInv(n: State, g: HostId)
    requires Inv(n)
    ensures Inv(DestroyGroup(n, g))
  {
    DestroyShape(n, g);
    DestroyKeepsIds(n, g);
    if g in n.groups {
      var ms := Ascending(n.groups[g]);
      var e := EvictEach(n, g, ms);
      var d := DestroyGroup(n, g);
      EvictKeepsInv(n, g, ms);
      EvictShape(n, g, ms);
      assert e.groups[g] == {};
      forall c, g' | IsConnected(d, c) ensures GroupView(c, g', d.inbox[c]) == Membership(d, c, g') {
        assert IsConnected(e, c) && Membership(e, c, g') == Membership(d, c, g');
      }
    }
  }

  lemma {:induction false} LeaveEachShape(n: State, gs: seq<HostId>, m: HostId)
    ensures var l := LeaveEach(n, gs, m);
            && l.peers == n.peers && l.free == n.free && l.next == n.next && l.groups.Keys == n.groups.Keys
            && forall g | g in n.groups :: l.groups[g] == if g in gs then n.groups[g] - {m} else n.groups[g]
  {
    if gs != [] {
      var k := |gs| - 1;
      LeaveEachShape(n, gs[..k], m);
      LeaveShape(LeaveEach(n, gs[..k], m), gs[k], m);
      assert gs == gs[..k] + [gs[k]];
    }
  }

  lemma {:induction false} LeaveEachKeepsInv(n: State, gs: seq<HostId>, m: HostId)
    requires Inv(n)
    ensures Inv(LeaveEach(n, gs, m))
  {
    if gs != [] {
      LeaveEachKeepsInv(n, gs[..|gs| - 1], m);
      LeaveKeepsInv(LeaveEach(n, gs[..|gs| - 1], m), gs[|gs| - 1], m);
    }
  }

  /** Everything but the logs after a peer is gone: it is in no group, and its id is free. */
  lemma PeerClosedShape(n: State, h: HostId)
    ensures var c := PeerClosed(n, h);
            && c.peers == n.peers - {h} && c.next == n.next && c.free == n.free + {h}
            && c.groups.Keys == n.groups.Keys && forall g | g in n.groups :: c.groups[g] == n.groups[g] - {h}
  {
    LeaveEachShape(n, Ascending(n.groups.Keys), h);
  }

  lemma PeerClosedKeepsIds(n: State, h: HostId)
    requires IdsConserved(n) && h in n.peers
    ensures IdsConserved(PeerClosed(n, h))
  {
    PeerClosedShape(n, h);
    assert forall x :: InUse(PeerClosed(n, h), x) <==> InUse(n, x);
  }

  /** A closed peer disappears from every group, and its id becomes free. */
  lemma PeerClosedKeepsInv(n: State, h: HostId)
    requires Inv(n) && h in n.peers
    ensures Inv(PeerClosed(n, h))
  {
    var gs := Ascending(n.groups.Keys);
    var l := LeaveEach(n, gs, h);
    var d := PeerClosed(n, h);
    LeaveEachKeepsInv(n, gs, h);
    LeaveEachShape(n, gs, h);
    PeerClosedKeepsIds(n, h);
    forall g, m | g in d.groups && m in d.groups[g] ensures m in d.peers { assert m in l.peers && m != h; }
    forall c, g | IsConnected(d, c) ensures GroupView(c, g, d.inbox[c]) == Membership(d, c, g) {
      assert IsConnected(l, c) && Membership(l, c, g) == Membership(d, c, g);
    }
  }

  // --- Allocation --------------------------------------------------------------------------------

  lemma IssuedCount(next: nat)
    requires next >= FIRST_CLIENT
    ensures |Issued(next)| == if next <= SKIPPED then next - 3 else next - 4
  {
    if next == FIRST_CLIENT {
      assert Issued(next) == {};
    } else {
      IssuedCount(next - 1);
      if next - 1 == SKIPPED {
        assert Issued(next) == Issued(next - 1);
      } else {
        assert Issued(next) == Issued(next - 1) + {next - 1};
      }
    }
  }

  /** Live clients, live groups and free ids are exactly the issued ids, each counted once. */
  lemma IdsPartition(n: State)
    requires IdsConserved(n)
    ensures n.peers.Keys + n.groups.Keys + n.free == Issued(n.next)
  {
    forall id ensures id in n.peers.Keys + n.groups.Keys + n.free <==> id in Issued(n.next) {
      assert InUse(n, id) <==> WasIssued(n.next, id);
    }
  }

  lemma LivePlusFree(n: State)
    requires IdsConserved(n)
    ensures Live(n) + |n.free| == |Issued(n.next)|
  {
    IdsPartition(n);
    DisjointSizes(n.peers.Keys, n.groups.Keys, n.free);
  }

  lemma DisjointSizes(a: set<HostId>, b: set<HostId>, c: set<HostId>)
    requires a !! b && a !! c && b !! c
    ensures |a + b + c| == |a| + |b| + |c|
  {
    assert |a + b| == |a| + |b|;
  }

  /** The id handed out is new to clients, groups and the free list, and never 0, 1, 2 or 50. */
  lemma AllocateFresh(n: State)
    requires IdsConserved(n)
    ensures var id := AllocatedId(n); var a := Allocate(n);
            && id >= FIRST_CLIENT && id != SKIPPED
            && id !in n.peers && id !in n.groups && id !in a.free
            && a == n.(free := a.free, next := a.next) && a.free <= n.free
            && (forall x :: x in n.free <==> x in a.free || (x == id && x in n.free))
  {
    if n.free == {} {
      assert !InUse(n, AllocatedId(n)) by { assert !WasIssued(n.next, AllocatedId(n)); }
    } else {
      assert InUse(n, Min(n.free));
    }
  }

  /** The id handed out is the least from 3 on, 50 excepted, that no client or group has. */
  lemma AllocatesLeast(n: State, x: HostId)
    requires IdsConserved(n) && 3 <= x < AllocatedId(n) && x != 50
    ensures x in n.peers || x in n.groups
  {
    if n.free == {} {
      assert WasIssued(n.next, x);
    } else {
      assert InUse(n, Min(n.free)) && WasIssued(n.next, x);
    }
    assert InUse(n, x);
  }

  /** The counter goes on as the record of what was issued exactly when it does not wrap. */
  lemma AllocateCounts(n: State)
    requires IdsConserved(n)
    ensures var id := AllocatedId(n); var a := Allocate(n);
            if HasId(n)
            then FIRST_CLIENT <= a.next < ID_SPACE && a.next != SKIPPED + 1 &&
                 forall x :: WasIssued(a.next, x) <==> WasIssued(n.next, x) || x == id
            else a.next == 0
  {
    if n.free != {} { assert InUse(n, Min(n.free)); }
  }

  /** Accepting a client keeps the ids partitioned if and only if an id is free or the counter does not wrap. */
  lemma AcceptIdsExact(n: State)
    requires IdsConserved(n)
    ensures IdsConserved(Accept(n)) <==> HasId(n)
  {
    AllocateFresh(n);
    AllocateCounts(n);
    var a := Accept(n);
    assert forall x :: InUse(a, x) <==> InUse(n, x) || x == AllocatedId(n);
  }

  lemma AcceptExact(n: State)
    requires Inv(n)
    ensures Inv(Accept(n)) <==> HasId(n)
  {
    AllocateFresh(n);
    AcceptIdsExact(n);
    var a := Accept(n);
    forall g, m | g in a.groups && m in a.groups[g] ensures m in a.peers { assert m in n.peers; }
    forall c, g | IsConnected(a, c) ensures GroupView(c, g, a.inbox[c]) == Membership(a, c, g) {
      assert IsConnected(n, c) && Membership(a, c, g) == Membership(n, c, g);
    }
  }

  lemma CreateGroupIdsExact(n: State)
    requires IdsConserved(n)
    ensures IdsConserved(CreateGroup(n)) <==> HasId(n)
  {
    AllocateFresh(n);
    AllocateCounts(n);
    var a := CreateGroup(n);
    assert forall x :: InUse(a, x) <==> InUse(n, x) || x == AllocatedId(n);
  }

  lemma CreateGroupExact(n: State)
    requires Inv(n)
    ensures Inv(CreateGroup(n)) <==> HasId(n)
  {
    AllocateFresh(n);
    CreateGroupIdsExact(n);
    var a := CreateGroup(n);
    forall g, m | g in a.groups && m in a.groups[g] ensures m in a.peers { assert g in n.groups; }
    forall c, g | IsConnected(a, c) ensures GroupView(c, g, a.inbox[c]) == Membership(a, c, g) {
      assert IsConnected(n, c) && Membership(a, c, g) == Membership(n, c, g);
    }
  }

  // --- Phases ------------------------------------------------------------------------------------

  /** A peer may move to any later phase, with one exception: one that is already a member of a group was never
      told so, and its view is wrong from the moment it is connected. */
  lemma PhaseExact(n: State, h: HostId, phase: Phase)
    requires Inv(n) && h in n.peers
    requires HasJoined(n, h) ==> phase.Closed?
    ensures Inv(SetPhase(n, h, phase)) <==> !(phase.Connected? && InGroup(n, h))
  {
    var s := SetPhase(n, h, phase);
    assert s.peers.Keys == n.peers.Keys;
    if phase.Connected? && InGroup(n, h) {
      var g :| g in n.groups && h in n.groups[g];
      assert GroupView(h, g, s.inbox[h]) == {} && h in Membership(s, h, g) && IsConnected(s, h);
    } else {
      forall c, g | IsConnected(s, c) ensures GroupView(c, g, s.inbox[c]) == Membership(s, c, g) {
        if c == h {
          assert g in n.groups ==> h !in n.groups[g];
        } else {
          assert IsConnected(n, c) && Membership(s, c, g) == Membership(n, c, g);
        }
      }
    }
  }
}
