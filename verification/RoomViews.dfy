/**
  What a client knows about the room it is in: the fold of the room messages on its connection.
 */
module RoomViews {
  import opened Hosts
  import Net
  import opened Game

  datatype RoomView = RoomView(slots: seq<HostId>, closed: seq<bool>, master: nat)

  /** What the server holds for that room. */
  function ViewOf(r: RoomObject): RoomView { RoomView(r.slots, r.closed, r.master) }

  function Put<T>(s: seq<T>, i: nat, x: T): seq<T> { if i < |s| then s[i := x] else s }

  /** The seat table announced by a member list. */
  function Seats(members: seq<Member>): seq<HostId> {
    if members == [] then NO_SEATS
    else Put(Seats(members[..|members| - 1]), members[|members| - 1].slot, members[|members| - 1].host)
  }

  /** Answers that take the player out of its room. */
  predicate LeadsOut(rmi: nat) {
    rmi == LOGOUT_OK || rmi == ENTER_LOBBY || rmi == LEAVE_CHANNEL || rmi == CHANGE_CHANNEL
  }

  /** Opening or entering a room starts a new picture, leaving it ends the picture, the other messages amend it. */
  function ApplyToRoom(self: HostId, view: Option<RoomView>, p: Packet): Option<RoomView> {
    if !p.Room? then view
    else match p.message
      case CreateRoom(result) => if result == OK then Some(RoomView(NO_SEATS[0 := self], ALL_OPEN, 0)) else view
      case EnterRoom(members, master, closed, result) =>
        if result == OK then Some(RoomView(Seats(members), closed, master)) else view
      case KickedRoom => None
      case LeaveRoom(result) => if result == OK then None else view
      case Answer(rmi, result) => if result == OK && LeadsOut(rmi) then None else view
      case m => if view.None? then None else Some(Amend(view.value, m))
  }

  function Amend(v: RoomView, m: RoomMessage): RoomView {
    match m
    case RoomAddUser(u) => v.(slots := Put(v.slots, u.slot, u.host))
    case RoomDelUser(u) => v.(slots := Put(v.slots, u.slot, 0))
    case NewRoomMaster(slot) => v.(master := slot)
    case CloseSlot(slot) => v.(closed := Put(v.closed, slot, true))
    case OpenSlot(slot) => v.(closed := Put(v.closed, slot, false))
    case _ => v
  }

  function ClientView(self: HostId, log: seq<Packet>): Option<RoomView> {
    if log == [] then None else ApplyToRoom(self, ClientView(self, log[..|log| - 1]), log[|log| - 1])
  }

  lemma ClientViewAppend(self: HostId, log: seq<Packet>, p: Packet)
    ensures ClientView(self, log + [p]) == ApplyToRoom(self, ClientView(self, log), p)
  {
    assert (log + [p])[..|log|] == log;
  }

  /** The picture a connected client of `n` has. */
  function Known(n: Net.State, c: HostId): Option<RoomView> {
    if c in n.inbox then ClientView(c, n.inbox[c]) else None
  }

  // --- What each way of sending does to a client's picture ---------------------------------------

  lemma BroadcastKnown(n: Net.State, to: set<HostId>, p: Packet, c: HostId)
    requires Net.IsConnected(n, c) && c in n.inbox
    ensures Known(Net.Broadcast(n, to, p), c) == if c in to then ApplyToRoom(c, Known(n, c), p) else Known(n, c)
  {
    ClientViewAppend(c, n.inbox[c], p);
  }

  lemma SendKnown(n: Net.State, to: HostId, p: Packet, c: HostId)
    requires Net.IsConnected(n, c) && c in n.inbox
    ensures Known(Net.Send(n, to, p), c) == if c == to then ApplyToRoom(c, Known(n, c), p) else Known(n, c)
  {
    ClientViewAppend(c, n.inbox[c], p);
  }

  /** P2P traffic says nothing about rooms. */
  lemma {:induction false} JoinPacketsKnown(c: HostId, log: seq<Packet>, g: HostId, ms: seq<HostId>)
    ensures ClientView(c, log + Net.JoinPackets(g, ms)) == ClientView(c, log)
  {
    if ms == [] {
      assert log + Net.JoinPackets(g, ms) == log;
    } else {
      var k := |ms| - 1;
      JoinPacketsKnown(c, log, g, ms[..k]);
      assert log + Net.JoinPackets(g, ms) == log + Net.JoinPackets(g, ms[..k]) + [GroupJoin(g, ms[k])];
      ClientViewAppend(c, log + Net.JoinPackets(g, ms[..k]), GroupJoin(g, ms[k]));
    }
  }

  lemma JoinGroupKnown(n: Net.State, g: HostId, m: HostId, c: HostId)
    requires n.inbox.Keys == n.peers.Keys && Net.IsConnected(n, c)
    ensures Known(Net.JoinGroup(n, g, m), c) == Known(n, c)
  {
    if g in n.groups && m in n.peers && m !in n.groups[g] {
      Net.JoinLog(n, g, m, c);
      if c == m {
        JoinPacketsKnown(c, n.inbox[c], g, Ascending(n.groups[g] + {m}));
      } else if c in n.groups[g] {
        ClientViewAppend(c, n.inbox[c], GroupJoin(g, m));
      } else {
        assert Net.JoinGroup(n, g, m).inbox[c] == n.inbox[c];
      }
    }
  }

  lemma LeaveGroupKnown(n: Net.State, g: HostId, m: HostId, c: HostId)
    requires n.inbox.Keys == n.peers.Keys && Net.IsConnected(n, c)
    ensures Known(Net.LeaveGroup(n, g, m), c) == Known(n, c)
  {
    if g in n.groups && m in n.groups[g] {
      var members := n.groups[g] - {m};
      var left := n.(groups := n.groups[g := members]);
      BroadcastKnown(left, members, GroupLeave(g, m), c);
      SendKnown(Net.Broadcast(left, members, GroupLeave(g, m)), m, GroupLeave(g, m), c);
    }
  }

  lemma {:induction false} EvictKnown(n: Net.State, g: HostId, ms: seq<HostId>, c: HostId)
    requires Net.Inv(n) && g in n.groups && Net.IsConnected(n, c)
    ensures Known(Net.EvictEach(n, g, ms), c) == Known(n, c)
  {
    if ms != [] {
      var k := |ms| - 1;
      Net.EvictKeepsInv(n, g, ms[..k]);
      EvictKnown(n, g, ms[..k], c);
      LeaveGroupKnown(Net.EvictEach(n, g, ms[..k]), g, ms[k], c);
    }
  }

  lemma DestroyGroupKnown(n: Net.State, g: HostId, c: HostId)
    requires Net.Inv(n) && Net.IsConnected(n, c)
    ensures Known(Net.DestroyGroup(n, g), c) == Known(n, c)
  {
    if g in n.groups {
      EvictKnown(n, g, Ascending(n.groups[g]), c);
    }
  }

  lemma {:induction false} LeaveEachKnown(n: Net.State, gs: seq<HostId>, m: HostId, c: HostId)
    requires Net.Inv(n) && Net.IsConnected(n, c)
    ensures Known(Net.LeaveEach(n, gs, m), c) == Known(n, c)
  {
    if gs != [] {
      var k := |gs| - 1;
      Net.LeaveEachKeepsInv(n, gs[..k], m);
      LeaveEachKnown(n, gs[..k], m, c);
      LeaveGroupKnown(Net.LeaveEach(n, gs[..k], m), gs[k], m, c);
    }
  }

  lemma PeerClosedKnown(n: Net.State, h: HostId, c: HostId)
    requires Net.Inv(n) && Net.IsConnected(n, c) && c != h
    ensures Known(Net.PeerClosed(n, h), c) == Known(n, c)
  {
    LeaveEachKnown(n, Ascending(n.groups.Keys), h, c);
  }

  // --- Sending to a room -------------------------------------------------------------------------

  predicate DistinctSeats(slots: seq<HostId>) {
    forall i, j | 0 <= i < j < |slots| && slots[i] != 0 :: slots[i] != slots[j]
  }

  /** Sending along the slot table touches only the logs, and never the P2P side. */
  lemma {:induction false} SendSlotsShape(n: Net.State, slots: seq<HostId>, m: RoomMessage, except: HostId)
    ensures var t := SendSlots(n, slots, m, except);
            t == n.(inbox := t.inbox) && t.inbox.Keys == n.inbox.Keys
    ensures Net.Inv(n) ==> Net.Inv(SendSlots(n, slots, m, except))
  {
    if slots != [] {
      var k := |slots| - 1;
      var t := SendSlots(n, slots[..k], m, except);
      SendSlotsShape(n, slots[..k], m, except);
      if Net.Inv(n) {
        Net.SendIsBroadcast(t, slots[k], Room(m));
        Net.BroadcastKeepsInv(t, {slots[k]}, Room(m));
      }
    }
  }

  /** Each occupant other than `except` hears the message once, nobody else does. */
  lemma {:induction false} SendSlotsKnown(n: Net.State, slots: seq<HostId>, m: RoomMessage, except: HostId, c: HostId)
    requires DistinctSeats(slots) && Net.IsConnected(n, c) && c in n.inbox && c != 0
    ensures Known(SendSlots(n, slots, m, except), c) ==
            if c in slots && c != except then ApplyToRoom(c, Known(n, c), Room(m)) else Known(n, c)
  {
    if slots != [] {
      var k := |slots| - 1;
      SendSlotsShape(n, slots[..k], m, except);
      SendSlotsKnown(n, slots[..k], m, except, c);
      SendKnown(SendSlots(n, slots[..k], m, except), slots[k], Room(m), c);
      assert slots == slots[..k] + [slots[k]];
    }
  }
}
