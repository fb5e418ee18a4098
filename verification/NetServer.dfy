/**
  The ProudNet server object: its tables are updated in place, one notification at a time, and every
  method is tied to the corresponding function of module Net.
 */
module NetServer {
  import opened Hosts
  import opened Phases
  import opened Net

  /** What the notification loop of a join has sent once it has visited `done`. */
  ghost function JoinNotices(n: State, g: HostId, m: HostId, done: seq<HostId>): State {
    SendAll(Broadcast(n, SetOf(done) - {m}, GroupJoin(g, m)), m, JoinPackets(g, done))
  }

  lemma JoinNoticesLog(n: State, g: HostId, m: HostId, done: seq<HostId>)
    ensures var j := JoinNotices(n, g, m, done);
            && j == n.(inbox := j.inbox) && j.inbox.Keys == n.inbox.Keys
            && forall h | h in n.inbox :: j.inbox[h] == n.inbox[h] + Notice(n, g, m, done, h)
  {
    SendAllEffect(Broadcast(n, SetOf(done) - {m}, GroupJoin(g, m)), m, JoinPackets(g, done));
  }

  /** ... and of that, what host `h` received. */
  ghost function Notice(n: State, g: HostId, m: HostId, done: seq<HostId>, h: HostId): seq<Packet> {
    if !IsConnected(n, h) then []
    else if h == m then JoinPackets(g, done)
    else if h in done then [GroupJoin(g, m)] else []
  }

  lemma NoticeNext(n: State, g: HostId, m: HostId, done: seq<HostId>, e: HostId, h: HostId)
    requires e !in SetOf(done)
    ensures Notice(n, g, m, done + [e], h) ==
            Notice(n, g, m, done, h) + Heard(n, g, m, e, h)
  {
    assert JoinPackets(g, done + [e]) == JoinPackets(g, done) + [GroupJoin(g, e)];
  }

  lemma AppendAssociates(a: seq<Packet>, b: seq<Packet>, c: seq<Packet>)
    ensures a + (b + c) == a + b + c
  {
  }

  ghost function Heard(n: State, g: HostId, m: HostId, e: HostId, h: HostId): seq<Packet> {
    if !IsConnected(n, h) then [] else if h == m then [GroupJoin(g, e)] else if h == e then [GroupJoin(g, m)] else []
  }

  lemma TellBothLog(n: State, g: HostId, m: HostId, e: HostId)
    ensures var t := TellBoth(n, g, m, e);
            && t == n.(inbox := t.inbox) && t.inbox.Keys == n.inbox.Keys
            && forall h | h in n.inbox :: t.inbox[h] == n.inbox[h] + Heard(n, g, m, e, h)
  {
  }

  lemma JoinNoticesNext(n: State, g: HostId, m: HostId, done: seq<HostId>, e: HostId)
    requires e !in SetOf(done)
    ensures JoinNotices(n, g, m, done + [e]) == TellBoth(JoinNotices(n, g, m, done), g, m, e)
  {
    var after := JoinNotices(n, g, m, done + [e]);
    var sent := TellBoth(JoinNotices(n, g, m, done), g, m, e);
    JoinNoticesLog(n, g, m, done);
    JoinNoticesLog(n, g, m, done + [e]);
    TellBothLog(JoinNotices(n, g, m, done), g, m, e);
    forall h | h in n.inbox ensures sent.inbox[h] == after.inbox[h] {
      NoticeNext(n, g, m, done, e, h);
      AppendAssociates(n.inbox[h], Notice(n, g, m, done, h), Heard(n, g, m, e, h));
    }
    assert sent.inbox == after.inbox;
  }

  /** One round of that loop. */
  ghost function TellBoth(n: State, g: HostId, m: HostId, e: HostId): State {
    var told := Send(n, m, GroupJoin(g, e));
    if e == m then told else Send(told, e, GroupJoin(g, m))
  }

  lemma BroadcastNext(n: State, done: set<HostId>, e: HostId, p: Packet)
    requires e !in done
    ensures Send(Broadcast(n, done, p), e, p) == Broadcast(n, done + {e}, p)
  {
    assert Send(Broadcast(n, done, p), e, p).inbox == Broadcast(n, done + {e}, p).inbox;
  }

  lemma BroadcastNone(n: State, p: Packet)
    ensures Broadcast(n, {}, p) == n
  {
    assert Broadcast(n, {}, p).inbox == n.inbox;
  }

  // --- Relay -------------------------------------------------------------------------------------

  /** Where one destination of a relay leads: every other member of a group, or the host itself. */
  function Targets(n: State, sender: HostId, dest: HostId): set<HostId> {
    if dest in n.groups then n.groups[dest] - {sender} else {dest}
  }

  function RelayTargets(n: State, sender: HostId, dests: seq<HostId>): set<HostId> {
    if dests == [] then {}
    else RelayTargets(n, sender, dests[..|dests| - 1]) + Targets(n, sender, dests[|dests| - 1])
  }

  /** The hosts a relay reaches: members of the listed groups other than the sender, and listed hosts that
      are no group. */
  lemma {:induction false} RelayReaches(n: State, sender: HostId, dests: seq<HostId>, h: HostId)
    ensures h in RelayTargets(n, sender, dests) <==>
            || (exists d | d in dests :: d in n.groups && h in n.groups[d] && h != sender)
            || (h in dests && h !in n.groups)
  {
    if dests != [] {
      var k := |dests| - 1;
      RelayReaches(n, sender, dests[..k], h);
      assert dests == dests[..k] + [dests[k]];
    }
  }

  /** However often a host is named, directly or through groups, it gets the payload exactly once. */
  lemma RelayDeliversOnce(n: State, sender: HostId, dests: seq<HostId>, payload: seq<nat>, h: HostId)
    requires Inv(n) && h in n.peers
    ensures var r := Broadcast(n, RelayTargets(n, sender, dests), Relayed(sender, payload));
            && Inv(r)
            && r.inbox[h] == n.inbox[h] +
                 if && IsConnected(n, h)
                    && (h in dests || exists d | d in dests :: d in n.groups && h in n.groups[d] && h != sender)
                 then [Relayed(sender, payload)] else []
  {
    BroadcastKeepsInv(n, RelayTargets(n, sender, dests), Relayed(sender, payload));
    RelayReaches(n, sender, dests, h);
  }

  // --- The object --------------------------------------------------------------------------------

  class Server {
    var peers: map<HostId, Phase>
    var groups: map<HostId, set<HostId>>
    var freeIds: set<HostId>
    var nextId: nat
    var inbox: map<HostId, seq<Packet>>

    ghost function Model(): State
      reads this
    {
      State(peers, groups, freeIds, nextId, inbox)
    }

    constructor ()
      ensures Model() == INIT
    {
      peers, groups, freeIds, nextId, inbox := map[], map[], {}, FIRST_CLIENT, map[];
    }

    method AllocateHostId() returns (id: HostId)
      modifies this
      ensures id == AllocatedId(old(Model())) && Model() == Allocate(old(Model()))
    {
      if freeIds != {} {
        id := Min(freeIds);
        freeIds := freeIds - {id};
        return;
      }
      id := nextId;
      nextId := Bump(nextId);
      if id == SKIPPED {
        id := nextId;
        nextId := Bump(nextId);
      }
    }

    method ReleaseHostId(id: HostId)
      modifies this
      ensures Model() == Release(old(Model()), id)
    {
      freeIds := freeIds + {id};
    }

    method SendTo(to: HostId, p: Packet)
      modifies this
      ensures Model() == Send(old(Model()), to, p)
    {
      if to in peers && peers[to].Connected? && to in inbox {
        inbox := inbox[to := inbox[to] + [p]];
      }
    }

    method AcceptPeer() returns (id: HostId)
      modifies this
      ensures id == AllocatedId(old(Model())) && Model() == Accept(old(Model()))
    {
      id := AllocateHostId();
      peers := peers[id := AwaitingPublicKey];
      inbox := inbox[id := []];
    }

    method EnterPhase(h: HostId, phase: Phase)
      requires h in peers
      modifies this
      ensures Model() == SetPhase(old(Model()), h, phase)
    {
      peers := peers[h := phase];
    }

    method CreateP2PGroup() returns (group: HostId)
      modifies this
      ensures group == AllocatedId(old(Model())) && Model() == CreateGroup(old(Model()))
    {
      group := AllocateHostId();
      groups := groups[group := {}];
    }

    method JoinP2PGroup(group: HostId, member: HostId)
      modifies this
      ensures Model() == JoinGroup(old(Model()), group, member)
    {
      if group !in groups || member !in peers || member in groups[group] {
        return;
      }
      groups := groups[group := groups[group] + {member}];
      NotifyJoin(group, member, groups[group]);
    }

    /** Tells the new member about everyone, itself included, and everyone else about the new member. */
    method NotifyJoin(group: HostId, member: HostId, members: set<HostId>)
      modifies this
      ensures Model() == JoinNotices(old(Model()), group, member, Ascending(members))
    {
      ghost var start := Model();
      var order := Ascending(members);
      BroadcastNone(start, GroupJoin(group, member));
      assert SetOf(order[..0]) - {member} == {};
      for i := 0 to |order|
        invariant Model() == JoinNotices(start, group, member, order[..i])
      {
        NotVisitedBefore(members, i);
        JoinNoticesNext(start, group, member, order[..i], order[i]);
        assert order[..i + 1] == order[..i] + [order[i]];
        SendTo(member, GroupJoin(group, order[i]));
        if order[i] != member {
          SendTo(order[i], GroupJoin(group, member));
        }
      }
      assert order[..|order|] == order;
    }

    method LeaveP2PGroup(group: HostId, member: HostId)
      modifies this
      ensures Model() == LeaveGroup(old(Model()), group, member)
    {
      if group !in groups || member !in groups[group] {
        return;
      }
      groups := groups[group := groups[group] - {member}];
      SendEach(groups[group], GroupLeave(group, member));
      SendTo(member, GroupLeave(group, member));
    }

    method SendEach(hosts: set<HostId>, p: Packet)
      modifies this
      ensures Model() == Broadcast(old(Model()), hosts, p)
    {
      hide Broadcast, Send, Ascending;
      ghost var start := Model();
      var order := Ascending(hosts);
      AscendingCovers(hosts);
      BroadcastNone(start, p);
      assert SetOf(order[..0]) == {};
      for i := 0 to |order|
        invariant Model() == Broadcast(start, SetOf(order[..i]), p)
      {
        NotVisitedBefore(hosts, i);
        BroadcastNext(start, SetOf(order[..i]), order[i], p);
        assert order[..i + 1] == order[..i] + [order[i]];
        SetOfAppend(order[..i], order[i]);
        SendTo(order[i], p);
      }
      assert order[..|order|] == order;
    }

    method DestroyP2PGroup(group: HostId)
      modifies this
      ensures Model() == DestroyGroup(old(Model()), group)
    {
      if group !in groups {
        return;
      }
      var members := Ascending(groups[group]);
      for i := 0 to |members|
        invariant Model() == EvictEach(old(Model()), group, members[..i])
      {
        assert members[..i + 1][..i] == members[..i];
        LeaveP2PGroup(group, members[i]);
      }
      assert members[..|members|] == members;
      groups := groups - {group};
      ReleaseHostId(group);
    }

    /** The peer leaves every group it is in, then its table entry and its id go. */
    method OnPeerClosed(id: HostId)
      modifies this
      ensures Model() == PeerClosed(old(Model()), id)
    {
      var order := Ascending(groups.Keys);
      for i := 0 to |order|
        invariant Model() == LeaveEach(old(Model()), order[..i], id)
      {
        assert order[..i + 1][..i] == order[..i];
        LeaveP2PGroup(order[i], id);
      }
      assert order[..|order|] == order;
      peers := peers - {id};
      inbox := inbox - {id};
      ReleaseHostId(id);
    }

    /** Serves one host unless it has been served before. */
    method RelayOnce(id: HostId, p: Packet, sent: set<HostId>, ghost start: State) returns (sent': set<HostId>)
      requires Model() == Broadcast(start, sent, p)
      modifies this
      ensures sent' == sent + {id} && Model() == Broadcast(start, sent', p)
    {
      sent' := sent + {id};
      if id !in sent {
        BroadcastNext(start, sent, id, p);
        SendTo(id, p);
      } else {
        assert sent' == sent;
      }
    }

    /** Serves the hosts one destination leads to. */
    method RelayTo(sender: HostId, dest: HostId, p: Packet, sent: set<HostId>, ghost start: State)
      returns (sent': set<HostId>)
      requires Model() == Broadcast(start, sent, p)
      modifies this
      ensures sent' == sent + Targets(start, sender, dest) && Model() == Broadcast(start, sent', p)
    {
      if dest !in groups {
        sent' := RelayOnce(dest, p, sent, start);
        return;
      }
      sent' := sent;
      var order := Ascending(groups[dest]);
      for i := 0 to |order|
        invariant sent' == sent + (SetOf(order[..i]) - {sender})
        invariant Model() == Broadcast(start, sent', p)
      {
        assert order[..i + 1] == order[..i] + [order[i]];
        SetOfAppend(order[..i], order[i]);
        if order[i] != sender {
          sent' := RelayOnce(order[i], p, sent', start);
        }
      }
      assert order[..|order|] == order;
    }

    method RelayUnreliable(sender: HostId, dests: seq<HostId>, payload: seq<nat>)
      modifies this
      ensures Model() == Broadcast(old(Model()), RelayTargets(old(Model()), sender, dests), Relayed(sender, payload))
    {
      ghost var start := Model();
      var p := Relayed(sender, payload);
      var sent: set<HostId> := {};
      BroadcastNone(start, p);
      for i := 0 to |dests|
        invariant sent == RelayTargets(start, sender, dests[..i])
        invariant Model() == Broadcast(start, sent, p)
      {
        assert dests[..i + 1][..i] == dests[..i];
        sent := RelayTo(sender, dests[i], p, sent, start);
      }
      assert dests[..|dests|] == dests;
    }
  }
}
