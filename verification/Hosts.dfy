/**
  How far a connection has come.
 */
module Phases {
  datatype Phase = AwaitingPublicKey | AwaitingConnectionRequest | Connected | Closed
}

/**
  Host ids and the packets the server puts on a client's connection.
 */
module Hosts {

  /** A client or a P2P group; 0 means "nobody". */
  type HostId = nat

  datatype Option<+T> = None | Some(value: T)

  /** One entry of the member list carried by Enter_Room. */
  datatype Member = Member(host: HostId, slot: nat)

  /** The game messages a client folds into its picture of the room it is in. */
  datatype RoomMessage =
    | CreateRoom(result: nat)
    | EnterRoom(members: seq<Member>, master: nat, closed: seq<bool>, result: nat)
    | RoomAddUser(user: Member)
    | RoomDelUser(left: Member)
    | NewRoomMaster(slot: nat)
    | CloseSlot(slot: nat)
    | OpenSlot(slot: nat)
    | KickedRoom
    | LeaveRoom(result: nat)
    | StartGame
    | Answer(rmi: nat, result: nat)

  /** What the server writes to a connected client, in order. */
  datatype Packet =
    | GroupJoin(group: HostId, member: HostId)
    | GroupLeave(group: HostId, member: HostId)
    | Relayed(sender: HostId, payload: seq<nat>)
    | Room(message: RoomMessage)

  // --- Ordered sets: std::set iterates in ascending order -----------------------------------------

  lemma MinExists(s: set<nat>)
    requires s != {}
    ensures exists m :: m in s && forall x | x in s :: m <= x
  {
    var x :| x in s;
    MinBelow(s, x);
  }

  lemma MinBelow(s: set<nat>, x: nat)
    requires x in s
    ensures exists m :: m in s && forall y | y in s :: m <= y
    decreases x
  {
    if y :| y in s && y < x {
      MinBelow(s, y);
    } else {
      assert x in s && forall y | y in s :: x <= y;
    }
  }

  /** `*s.begin()` */
  function Min(s: set<nat>): (m: nat)
    requires s != {}
    ensures m in s && forall x | x in s :: m <= x
  {
    MinExists(s);
    var m :| m in s && forall x | x in s :: m <= x;
    m
  }

  function SetOf(s: seq<nat>): set<nat> { set x | x in s }

  lemma SetOfAppend(s: seq<nat>, x: nat)
    ensures SetOf(s + [x]) == SetOf(s) + {x}
  {
  }

  /** The elements of `s` in iteration order. */
  function Ascending(s: set<nat>): (r: seq<nat>)
    ensures forall x :: x in r <==> x in s
    ensures SetOf(r) == s
  {
    if s == {} then [] else [Min(s)] + Ascending(s - {Min(s)})
  }

  lemma AscendingCovers(s: set<nat>)
    ensures SetOf(Ascending(s)) == s
  {
  }

  /** Iteration order is strictly increasing, so no element is visited twice. */
  lemma {:induction false} AscendingIncreases(s: set<nat>, i: nat, j: nat)
    requires i < j < |Ascending(s)|
    ensures Ascending(s)[i] < Ascending(s)[j]
  {
    var rest := s - {Min(s)};
    assert Ascending(s) == [Min(s)] + Ascending(rest);
    if i == 0 {
      assert Ascending(s)[j] in Ascending(rest);
    } else {
      AscendingIncreases(rest, i - 1, j - 1);
    }
  }

  lemma NotVisitedBefore(s: set<nat>, i: nat)
    requires i < |Ascending(s)|
    ensures Ascending(s)[i] !in SetOf(Ascending(s)[..i])
  {
    forall k | 0 <= k < i ensures Ascending(s)[k] != Ascending(s)[i] {
      AscendingIncreases(s, k, i);
    }
  }
}
