/**
  The P2P notices in bytes: what a client that decodes its byte stream believes about its groups is what the server
  holds, from the member tables down to the reads of a socket.
 */
module Notices {
  import opened Arith
  import opened Bytes
  import opened Wire
  import opened Framing
  import opened Hosts
  import Net
  import NetRuns
  import Peers
  import PeerLife
  import Game
  import GameInv
  import GameTheorems

  const MEMBER_JOIN: nat := 64502
  const MEMBER_LEAVE: nat := 64506

  // --- The layouts -------------------------------------------------------------------------------

  function RmiHeader(id: nat): (b: seq<Byte>)
    ensures |b| == 3
  {
    [Peers.RMI] + LeBytes(id, 2)
  }

  /** `notify_group_member_join` */
  function JoinBytes(g: HostId, m: HostId, event: nat, instance: Peers.Guid): seq<Byte> {
    RmiHeader(MEMBER_JOIN) + LeBytes(g, 4) + LeBytes(m, 4) + ArrayBytes([]) + LeBytes(event, 4) + LeBytes(1, 4)
    + instance + [0] + LeBytes(0, 2)
  }

  /** `notify_group_member_leave` */
  function LeaveBytes(g: HostId, m: HostId): seq<Byte> {
    RmiHeader(MEMBER_LEAVE) + LeBytes(m, 4) + LeBytes(g, 4)
  }

  /** The RMI a message calls, if it is one. */
  function RmiId(m: seq<Byte>): Option<nat> {
    if m == [] || m[0] != Peers.RMI then None
    else
      var id := NumberAt(m, 1, 2).result;
      if id.Err? then None else Some(id.value)
  }

  /** Two host ids in a row. */
  function TwoHosts(m: seq<Byte>, off: nat): Option<(HostId, HostId)>
    requires off <= |m|
  {
    var a := NumberAt(m, off, 4);
    if a.result.Err? then None
    else
      var b := NumberAt(m, a.next, 4);
      if b.result.Err? then None else Some((a.result.value, b.result.value))
  }

  /** The rest of a join notice: custom data, event, first frame, connection magic, two settings. */
  predicate JoinTail(m: seq<Byte>, off: nat)
    requires off <= |m|
  {
    var custom := ArrayAt(m, off);
    custom.result.Ok? && custom.next + 27 == |m|
  }

  /** What a client makes of a message as far as groups are concerned. */
  function Decoded(m: seq<Byte>): Option<Packet> {
    if RmiId(m) == Some(MEMBER_JOIN) && |m| >= 11 && TwoHosts(m, 3).Some? && JoinTail(m, 11) then
      Some(GroupJoin(TwoHosts(m, 3).value.0, TwoHosts(m, 3).value.1))
    else if RmiId(m) == Some(MEMBER_LEAVE) && |m| == 11 && TwoHosts(m, 3).Some? then
      Some(GroupLeave(TwoHosts(m, 3).value.1, TwoHosts(m, 3).value.0))
    else None
  }

  // --- Each notice is read back ------------------------------------------------------------------

  lemma Powers()
    ensures Pow(256, 2) == 0x1_0000 && Pow(256, 4) == Net.ID_SPACE
  {
    PowAdd(256, 1, 1);
    PowAdd(256, 2, 2);
  }

  lemma HeaderRead(id: nat, rest: seq<Byte>)
    requires id < 0x1_0000
    ensures RmiId(RmiHeader(id) + rest) == Some(id)
  {
    hide LeBytes, BytesVal, Pow, NumberAt;
    var m := RmiHeader(id) + rest;
    Powers();
    assert m[1..3] == LeBytes(id, 2);
    NumberBack(m, 1, id, 2);
  }

  lemma HostsRead(id: nat, a: HostId, b: HostId, rest: seq<Byte>)
    requires a < Net.ID_SPACE && b < Net.ID_SPACE
    ensures TwoHosts(RmiHeader(id) + LeBytes(a, 4) + LeBytes(b, 4) + rest, 3) == Some((a, b))
  {
    hide LeBytes, BytesVal, Pow, NumberAt, RmiHeader;
    HeaderLength(id);
    var m := RmiHeader(id) + LeBytes(a, 4) + LeBytes(b, 4) + rest;
    FourLong(a);
    FourLong(b);
    Powers();
    assert m[3..7] == LeBytes(a, 4) && m[7..11] == LeBytes(b, 4);
    NumberBack(m, 3, a, 4);
    NumberBack(m, 7, b, 4);
  }

  lemma HeaderLength(id: nat)
    ensures |RmiHeader(id)| == 3
  {
  }

  lemma FourLong(v: nat)
    ensures |LeBytes(v, 4)| == 4
  {
  }

  lemma TwoLong(v: nat)
    ensures |LeBytes(v, 2)| == 2
  {
  }

  lemma TailRead(head: seq<Byte>, event: nat, instance: Peers.Guid)
    requires |head| == 11
    ensures var m := head + ArrayBytes([]) + LeBytes(event, 4) + LeBytes(1, 4) + instance + [0] + LeBytes(0, 2);
            JoinTail(m, 11)
  {
    hide LeBytes, ArrayBytes, ArrayAt;
    var m := head + ArrayBytes([]) + LeBytes(event, 4) + LeBytes(1, 4) + instance + [0] + LeBytes(0, 2);
    FourLong(event);
    FourLong(1);
    TwoLong(0);
    assert m[11..11 + |ArrayBytes([])|] == ArrayBytes([]);
    ArrayBack(m, 11, []);
  }

  lemma JoinRead(g: HostId, m: HostId, event: nat, instance: Peers.Guid)
    requires g < Net.ID_SPACE && m < Net.ID_SPACE
    ensures Decoded(JoinBytes(g, m, event, instance)) == Some(GroupJoin(g, m))
  {
    hide LeBytes, ArrayBytes, RmiHeader, RmiId, TwoHosts, JoinTail;
    var tail := ArrayBytes([]) + LeBytes(event, 4) + LeBytes(1, 4) + instance + [0] + LeBytes(0, 2);
    var head := RmiHeader(MEMBER_JOIN) + LeBytes(g, 4) + LeBytes(m, 4);
    var b := JoinBytes(g, m, event, instance);
    HeaderLength(MEMBER_JOIN);
    FourLong(g);
    FourLong(m);
    assert b == head + tail && b == RmiHeader(MEMBER_JOIN) + (LeBytes(g, 4) + LeBytes(m, 4) + tail);
    HeaderRead(MEMBER_JOIN, LeBytes(g, 4) + LeBytes(m, 4) + tail);
    HostsRead(MEMBER_JOIN, g, m, tail);
    TailRead(head, event, instance);
  }

  lemma LeaveRead(g: HostId, m: HostId)
    requires g < Net.ID_SPACE && m < Net.ID_SPACE
    ensures Decoded(LeaveBytes(g, m)) == Some(GroupLeave(g, m))
  {
    hide LeBytes, RmiHeader, RmiId, TwoHosts;
    var b := LeaveBytes(g, m);
    HeaderLength(MEMBER_LEAVE);
    FourLong(g);
    FourLong(m);
    assert b == RmiHeader(MEMBER_LEAVE) + (LeBytes(m, 4) + LeBytes(g, 4));
    HeaderRead(MEMBER_LEAVE, LeBytes(m, 4) + LeBytes(g, 4));
    assert b == RmiHeader(MEMBER_LEAVE) + LeBytes(m, 4) + LeBytes(g, 4) + [];
    HostsRead(MEMBER_LEAVE, m, g, []);
  }

  // --- A connection's messages -------------------------------------------------------------------

  /** A message on its way out: a notice with its event number, or anything else. */
  datatype Outgoing = Notice(packet: Packet, event: nat) | Other(message: seq<Byte>)

  function Spelled(instance: Peers.Guid, o: Outgoing): seq<Byte> {
    match o
    case Other(message) => message
    case Notice(packet, event) =>
      match packet
      case GroupJoin(g, m) => JoinBytes(g, m, event, instance)
      case GroupLeave(g, m) => LeaveBytes(g, m)
      case _ => []
  }

  function SpelledAll(instance: Peers.Guid, outs: seq<Outgoing>): (ms: seq<seq<Byte>>)
    ensures |ms| == |outs|
  {
    seq(|outs|, i requires 0 <= i < |outs| => Spelled(instance, outs[i]))
  }

  /** The notices among some packets, in order. */
  function GroupPackets(log: seq<Packet>): seq<Packet> {
    if log == [] then []
    else GroupPackets(log[..|log| - 1]) + if Net.IsGroupPacket(log[|log| - 1]) then [log[|log| - 1]] else []
  }

  function NoticesOf(outs: seq<Outgoing>): seq<Packet> {
    if outs == [] then []
    else NoticesOf(outs[..|outs| - 1]) + if outs[|outs| - 1].Notice? then [outs[|outs| - 1].packet] else []
  }

  /** What else is sent does not read as a notice, and notices are notices. */
  predicate Distinct(outs: seq<Outgoing>) {
    forall i | 0 <= i < |outs| ::
      match outs[i] case Other(message) => Decoded(message) == None case Notice(p, _) => Net.IsGroupPacket(p)
  }

  /** What the messages of the handshake and the answer to a ping read as: nothing. */
  lemma HandshakeIsOther(cfg: Peers.Config, blob: seq<Byte>)
    ensures Decoded(Peers.Welcome(cfg)) == None && Decoded(Peers.DetectorOff()) == None
    ensures Decoded([Peers.SESSION_KEY] + blob) == None
  {
    hide LeBytes, BytesVal, Pow, ArrayBytes;
    HeaderRead(Peers.SPEED_HACK_DETECTOR, [0]);
    assert Peers.DetectorOff() == RmiHeader(Peers.SPEED_HACK_DETECTOR) + [0];
  }

  // --- What the client believes ------------------------------------------------------------------

  /** The member set of group `g` a client builds from the messages it receives. */
  function ViewFromBytes(self: HostId, g: HostId, ms: seq<seq<Byte>>): set<HostId> {
    if ms == [] then {}
    else
      var before := ViewFromBytes(self, g, ms[..|ms| - 1]);
      var p := Decoded(ms[|ms| - 1]);
      if p.None? then before else Net.ApplyToGroup(self, g, before, p.value)
  }

  lemma {:induction false} OnlyNoticesCount(self: HostId, g: HostId, log: seq<Packet>)
    ensures Net.GroupView(self, g, log) == Net.GroupView(self, g, GroupPackets(log))
  {
    if log != [] {
      var k := |log| - 1;
      OnlyNoticesCount(self, g, log[..k]);
      if Net.IsGroupPacket(log[k]) {
        Net.GroupViewAppend(self, g, GroupPackets(log[..k]), log[k]);
      } else {
        assert GroupPackets(log) == GroupPackets(log[..k]);
      }
    }
  }

  predicate AllInSpace(ps: seq<Packet>) { forall i | 0 <= i < |ps| :: Net.InSpace(ps[i]) }

  lemma {:induction false} GroupPacketsInSpace(log: seq<Packet>)
    requires AllInSpace(log)
    ensures AllInSpace(GroupPackets(log))
  {
    hide Net.InSpace;
    if log != [] {
      var k := |log| - 1;
      assert AllInSpace(log[..k]);
      GroupPacketsInSpace(log[..k]);
    }
  }

  lemma NoticeRead(instance: Peers.Guid, p: Packet, event: nat)
    requires Net.IsGroupPacket(p) && Net.InSpace(p)
    ensures Decoded(Spelled(instance, Notice(p, event))) == Some(p)
  {
    hide Decoded, JoinBytes, LeaveBytes;
    match p
    case GroupJoin(g, m) => JoinRead(g, m, event, instance);
    case GroupLeave(g, m) => LeaveRead(g, m);
  }

  /** Decoding and folding the bytes is folding the packets. */
  lemma {:induction false} BytesFold(self: HostId, g: HostId, instance: Peers.Guid, outs: seq<Outgoing>)
    requires Distinct(outs) && AllInSpace(NoticesOf(outs))
    ensures ViewFromBytes(self, g, SpelledAll(instance, outs)) == Net.GroupView(self, g, NoticesOf(outs))
  {
    hide Decoded, Spelled, Net.InSpace, Net.ApplyToGroup;
    if outs != [] {
      var k := |outs| - 1;
      var ms := SpelledAll(instance, outs);
      assert ms[..k] == SpelledAll(instance, outs[..k]);
      FewerInSpace(outs);
      BytesFold(self, g, instance, outs[..k]);
      if outs[k].Notice? {
        var ps := NoticesOf(outs);
        assert ps[|ps| - 1] == outs[k].packet;
        NoticeRead(instance, outs[k].packet, outs[k].event);
        Net.GroupViewAppend(self, g, NoticesOf(outs[..k]), outs[k].packet);
      } else {
        OtherIs(instance, outs[k]);
        assert NoticesOf(outs) == NoticesOf(outs[..k]);
      }
    }
  }

  lemma OtherIs(instance: Peers.Guid, o: Outgoing)
    requires o.Other?
    ensures Spelled(instance, o) == o.message
  {
  }

  lemma FewerInSpace(outs: seq<Outgoing>)
    requires outs != [] && AllInSpace(NoticesOf(outs))
    ensures AllInSpace(NoticesOf(outs[..|outs| - 1]))
  {
    hide Net.InSpace;
    var fewer, all := NoticesOf(outs[..|outs| - 1]), NoticesOf(outs);
    forall i | 0 <= i < |fewer| ensures Net.InSpace(fewer[i]) { assert all[i] == fewer[i]; }
  }

  // --- From the tables to the reads --------------------------------------------------------------

  /** The connection carries the packets of `log`: its notices are those of the log, in order, whatever else it sends
      in between. */
  predicate CarriesLog(p: Peers.Peer, instance: Peers.Guid, outs: seq<Outgoing>, log: seq<Packet>) {
    && PeerLife.Messages(p.log) == SpelledAll(instance, outs)
    && Distinct(outs) && NoticesOf(outs) == GroupPackets(log)
  }

  lemma StreamTells(n: Net.State, c: HostId, g: HostId, p: Peers.Peer, instance: Peers.Guid, outs: seq<Outgoing>,
                    chunks: seq<seq<Byte>>)
    requires Net.Inv(n) && Net.IsConnected(n, c) && CarriesLog(p, instance, outs, n.inbox[c])
    requires AllSmall(PeerLife.Messages(p.log)) && Concat(chunks) == Frames(PeerLife.Messages(p.log))
    ensures ViewFromBytes(c, g, Receive(chunks).payloads) == Net.Membership(n, c, g)
  {
    hide PeerLife.Messages, Frames, Concat, Receive, Drain, Distinct, SpelledAll, ViewFromBytes, Net.GroupView,
      Net.InSpace, NoticesOf, GroupPackets;
    var ms := PeerLife.Messages(p.log);
    ChunkingIsIrrelevant(chunks);
    FramesBack(ms);
    GroupPacketsInSpace(n.inbox[c]);
    BytesFold(c, g, instance, outs);
    OnlyNoticesCount(c, g, n.inbox[c]);
  }

  /** Over every safe run: however the byte stream of a connected client is cut into reads, what the client decodes
      and folds is the server's member set of each group it is in, and nothing for any other. */
  lemma BytesTellGroups(ops: seq<NetRuns.Op>, c: HostId, g: HostId, p: Peers.Peer, instance: Peers.Guid,
                        outs: seq<Outgoing>, chunks: seq<seq<Byte>>)
    requires NetRuns.SafeRun(ops) && Net.IsConnected(NetRuns.Run(ops), c) && c in NetRuns.Run(ops).inbox
    requires CarriesLog(p, instance, outs, NetRuns.Run(ops).inbox[c])
    requires AllSmall(PeerLife.Messages(p.log)) && Concat(chunks) == Frames(PeerLife.Messages(p.log))
    ensures ViewFromBytes(c, g, Receive(chunks).payloads) == Net.Membership(NetRuns.Run(ops), c, g)
  {
    hide NetRuns.Run, NetRuns.SafeRun, NetRuns.Throughout, CarriesLog, Frames, Concat, Receive, PeerLife.Messages,
      Net.Inv;
    NetRuns.RunExact(ops);
    StreamTells(NetRuns.Run(ops), c, g, p, instance, outs, chunks);
  }

  /** Over every run of the game server: a player in a room reads from its bytes exactly who is in that room. */
  lemma BytesTellRoom(steps: seq<Game.Step>, h: HostId, p: Peers.Peer, instance: Peers.Guid, outs: seq<Outgoing>,
                      chunks: seq<seq<Byte>>)
    requires GameTheorems.SafeFrom(Game.INIT, steps)
    requires var s := GameTheorems.RunFrom(Game.INIT, steps);
             && h in s.players && s.players[h].room.Some? && s.players[h].room.value < |s.rooms| && h in s.net.inbox
             && CarriesLog(p, instance, outs, s.net.inbox[h])
    requires AllSmall(PeerLife.Messages(p.log)) && Concat(chunks) == Frames(PeerLife.Messages(p.log))
    ensures var s := GameTheorems.RunFrom(Game.INIT, steps); var room := s.rooms[s.players[h].room.value];
            ViewFromBytes(h, room.group, Receive(chunks).payloads) == Game.Occupants(room)
  {
    hide GameTheorems.RunFrom, GameTheorems.SafeFrom, CarriesLog, Frames, Concat, Receive, PeerLife.Messages, Net.Inv,
      Game.Occupants, GameInv.Tables, GameInv.ViewsExact;
    var s := GameTheorems.RunFrom(Game.INIT, steps);
    GameTheorems.Reachable(steps);
    assert Net.HasJoined(s.net, h);
    GameTheorems.GroupViewIsRoom(steps, h);
    var g := s.rooms[s.players[h].room.value].group;
    StreamTells(s.net, h, g, p, instance, outs, chunks);
    ViewIsMembership(s.net, h, g);
  }

  lemma ViewIsMembership(n: Net.State, c: HostId, g: HostId)
    requires Net.Inv(n) && Net.IsConnected(n, c)
    ensures c in n.inbox && Net.GroupView(c, g, n.inbox[c]) == Net.Membership(n, c, g)
  {
  }

  // --- The builders ------------------------------------------------------------------------------

  method NotifyJoin(g: HostId, m: HostId, event: nat, instance: Peers.Guid) returns (message: seq<Byte>)
    ensures message == JoinBytes(g, m, event, instance)
  {
    hide LeBytes, ScalarBytes;
    var w := new Writer();
    w.WriteBytes([Peers.RMI]);
    w.WriteNumber(MEMBER_JOIN, 2);
    w.WriteNumber(g, 4);
    w.WriteNumber(m, 4);
    w.WriteByteArray([]);
    w.WriteNumber(event, 4);
    w.WriteNumber(1, 4);
    w.WriteBytes(instance);
    w.WriteBytes([0]);
    w.WriteNumber(0, 2);
    message := w.data;
    assert message == JoinBytes(g, m, event, instance);
  }

  method NotifyLeave(g: HostId, m: HostId) returns (message: seq<Byte>)
    ensures message == LeaveBytes(g, m)
  {
    hide LeBytes;
    var w := new Writer();
    w.WriteBytes([Peers.RMI]);
    w.WriteNumber(MEMBER_LEAVE, 2);
    w.WriteNumber(m, 4);
    w.WriteNumber(g, 4);
    message := w.data;
    assert message == LeaveBytes(g, m);
  }
}
