/**
  Whole runs of the ProudNet layer: any interleaving of connections, handshakes, disconnects and group
  operations, with the exact condition for ids to stay conserved and for every connected client's picture of every
  group to stay exact.
 */
module NetRuns {
  import opened Hosts
  import opened Phases
  import opened Net

  datatype Op =
    | Accepted
    | KeyExchanged(host: HostId)
    | Joined(host: HostId)
    | Dropped(host: HostId)
    | GroupCreated
    | GroupJoined(group: HostId, host: HostId)
    | GroupLeft(group: HostId, host: HostId)
    | GroupDestroyed(group: HostId)
    | Sent(host: HostId, message: RoomMessage)

  predicate InPhase(n: State, h: HostId, phase: Phase) {
    h in n.peers && n.peers[h] == phase
  }

  function Step(n: State, op: Op): State {
    match op
    case Accepted => Accept(n)
    case KeyExchanged(h) =>
      if InPhase(n, h, AwaitingPublicKey) then SetPhase(n, h, AwaitingConnectionRequest) else n
    case Joined(h) =>
      if InPhase(n, h, AwaitingConnectionRequest) then SetPhase(n, h, Connected) else n
    case Dropped(h) => if h in n.peers then PeerClosed(SetPhase(n, h, Closed), h) else n
    case GroupCreated => CreateGroup(n)
    case GroupJoined(g, h) => JoinGroup(n, g, h)
    case GroupLeft(g, h) => LeaveGroup(n, g, h)
    case GroupDestroyed(g) => DestroyGroup(n, g)
    case Sent(h, m) => Send(n, h, Room(m))
  }

  // --- Steps -------------------------------------------------------------------------------------

  predicate Allocates(op: Op) { op.Accepted? || op.GroupCreated? }

  /** An id is at hand, if the step needs one. */
  predicate HasIdFor(n: State, op: Op) { Allocates(op) ==> HasId(n) }

  /** The step breaks no picture: no peer becomes connected as a member of a group it was not told of. */
  predicate ToldInTime(n: State, op: Op) {
    op.Joined? && InPhase(n, op.host, AwaitingConnectionRequest) ==> !InGroup(n, op.host)
  }

  predicate SafeOp(n: State, op: Op) { HasIdFor(n, op) && ToldInTime(n, op) }

  /** Ids stay partitioned if and only if an id was at hand, whoever is told of what. */
  lemma IdsExact(n: State, op: Op)
    requires IdsConserved(n)
    ensures IdsConserved(Step(n, op)) <==> HasIdFor(n, op)
  {
    hide IdsConserved;
    match op
    case Accepted => AcceptIdsExact(n);
    case GroupCreated => CreateGroupIdsExact(n);
    case Dropped(h) =>
      if h in n.peers {
        SameIds(n, SetPhase(n, h, Closed));
        PeerClosedKeepsIds(SetPhase(n, h, Closed), h);
      }
    case GroupDestroyed(g) => DestroyKeepsIds(n, g);
    case _ => QuietKeepsIds(n, op);
  }

  lemma SameIds(n: State, t: State)
    requires IdsConserved(n) && t.free == n.free && t.next == n.next
    requires t.peers.Keys == n.peers.Keys && t.groups.Keys == n.groups.Keys
    ensures IdsConserved(t)
  {
    assert forall x :: InUse(t, x) <==> InUse(n, x);
  }

  lemma QuietKeepsIds(n: State, op: Op)
    requires IdsConserved(n) && !Allocates(op) && !op.Dropped? && !op.GroupDestroyed?
    ensures IdsConserved(Step(n, op))
  {
    hide IdsConserved, JoinGroup, LeaveGroup;
    var t := Step(n, op);
    match op
    case KeyExchanged(h) => SameIds(n, t);
    case Joined(h) => SameIds(n, t);
    case GroupJoined(g, h) => JoinShape(n, g, h); SameIds(n, t);
    case GroupLeft(g, h) => LeaveShape(n, g, h); SameIds(n, t);
    case Sent(h, m) => SameIds(n, t);
  }

  /** Every step keeps ids partitioned and views exact if and only if an id was at hand for it and it does not
      connect a peer that is already in a group. */
  lemma StepExact(n: State, op: Op)
    requires Inv(n)
    ensures Inv(Step(n, op)) <==> SafeOp(n, op)
  {
    hide Inv, InGroup, HasId, JoinGroup, LeaveGroup, DestroyGroup, Accept, CreateGroup, PeerClosed, Send;
    match op
    case Accepted => AcceptExact(n);
    case KeyExchanged(h) =>
      if InPhase(n, h, AwaitingPublicKey) { PhaseExact(n, h, AwaitingConnectionRequest); }
    case Joined(h) =>
      if InPhase(n, h, AwaitingConnectionRequest) { PhaseExact(n, h, Connected); }
    case Dropped(h) => DropKeepsInv(n, h);
    case GroupCreated => CreateGroupExact(n);
    case GroupJoined(g, h) => JoinKeepsInv(n, g, h);
    case GroupLeft(g, h) => LeaveKeepsInv(n, g, h);
    case GroupDestroyed(g) => DestroyKeepsInv(n, g);
    case Sent(h, m) =>
      SendIsBroadcast(n, h, Room(m));
      BroadcastKeepsInv(n, {h}, Room(m));
  }

  lemma DropKeepsInv(n: State, h: HostId)
    requires Inv(n)
    ensures Inv(Step(n, Dropped(h)))
  {
    hide Inv, PeerClosed;
    if h in n.peers {
      PhaseExact(n, h, Closed);
      PeerClosedKeepsInv(SetPhase(n, h, Closed), h);
    }
  }

  lemma AllocateCounter(n: State)
    requires IdsConserved(n) && HasId(n)
    ensures var a := Allocate(n); a.next == n.next || (a.next > n.next && a.free == {})
  {
  }

  /** The counter moves only when no freed id is left to reuse. */
  lemma CounterMovesLast(n: State, op: Op)
    requires IdsConserved(n) && HasIdFor(n, op)
    ensures var s := Step(n, op); s.next == n.next || (s.next > n.next && s.free == {})
  {
    hide IdsConserved, JoinGroup, LeaveGroup, DestroyGroup, PeerClosed, Allocate;
    match op
    case Accepted => AllocateCounter(n);
    case Dropped(h) => PeerClosedShape(SetPhase(n, h, Closed), h);
    case GroupCreated => AllocateCounter(n);
    case GroupJoined(g, h) => JoinShape(n, g, h);
    case GroupLeft(g, h) => LeaveShape(n, g, h);
    case GroupDestroyed(g) => DestroyShape(n, g);
    case _ =>
  }

  // --- Runs --------------------------------------------------------------------------------------

  function Run(ops: seq<Op>): State {
    if ops == [] then INIT else Step(Run(ops[..|ops| - 1]), ops[|ops| - 1])
  }

  /** Whenever an id was needed there was one. */
  predicate EnoughIds(ops: seq<Op>) {
    ops == [] || (EnoughIds(ops[..|ops| - 1]) && HasIdFor(Run(ops[..|ops| - 1]), ops[|ops| - 1]))
  }

  predicate SafeRun(ops: seq<Op>) {
    ops == [] || (SafeRun(ops[..|ops| - 1]) && SafeOp(Run(ops[..|ops| - 1]), ops[|ops| - 1]))
  }

  /** The most hosts ever live at the same time during a run. */
  function Peak(ops: seq<Op>): nat {
    var now := Live(Run(ops));
    if ops == [] then now
    else
      var before := Peak(ops[..|ops| - 1]);
      if now > before then now else before
  }

  /** At every moment of the run. */
  ghost predicate Throughout(ops: seq<Op>) {
    ops == [] || (Throughout(ops[..|ops| - 1]) && Inv(Run(ops)))
  }

  /** Ids are partitioned and views exact at every moment of a run if and only if every step of it is safe. */
  lemma {:induction false} RunExact(ops: seq<Op>)
    ensures Throughout(ops) <==> SafeRun(ops)
    ensures SafeRun(ops) ==> Inv(Run(ops))
  {
    hide Step, SafeOp, Inv;
    if ops == [] {
      InitHolds();
    } else {
      var before := ops[..|ops| - 1];
      RunExact(before);
      if SafeRun(before) { StepExact(Run(before), ops[|ops| - 1]); }
    }
  }

  lemma InitHolds()
    ensures Inv(INIT)
  {
  }

  lemma {:induction false} RunKeepsIds(ops: seq<Op>)
    requires EnoughIds(ops)
    ensures IdsConserved(Run(ops))
  {
    hide Step, HasIdFor;
    if ops == [] {
      InitHolds();
    } else {
      RunKeepsIds(ops[..|ops| - 1]);
      IdsExact(Run(ops[..|ops| - 1]), ops[|ops| - 1]);
    }
  }

  lemma {:induction false} IssuedIsPeak(ops: seq<Op>)
    requires EnoughIds(ops)
    ensures |Issued(Run(ops).next)| == Peak(ops)
  {
    hide Step, Live, Issued;
    var n := Run(ops);
    RunKeepsIds(ops);
    LivePlusFree(n);
    if ops == [] {
      IssuedCount(n.next);
    } else {
      var before := Run(ops[..|ops| - 1]);
      IssuedIsPeak(ops[..|ops| - 1]);
      RunKeepsIds(ops[..|ops| - 1]);
      CounterMovesLast(before, ops[|ops| - 1]);
      IssuedCount(before.next);
      IssuedCount(n.next);
    }
  }

  /** Every id is a live client, a live group or free, never two of these, never 50; and none is handed
      out before the server has really needed that many at once. */
  lemma IdsAreConserved(ops: seq<Op>)
    requires EnoughIds(ops)
    ensures var n := Run(ops);
            && n.peers.Keys !! n.groups.Keys && n.peers.Keys !! n.free && n.groups.Keys !! n.free
            && n.peers.Keys + n.groups.Keys + n.free == Issued(n.next)
            && SKIPPED !in n.peers && SKIPPED !in n.groups
            && |Issued(n.next)| == Peak(ops)
  {
    hide Run, Peak;
    var n := Run(ops);
    RunKeepsIds(ops);
    IdsPartition(n);
    IssuedIsPeak(ops);
    assert !WasIssued(n.next, SKIPPED);
    assert !InUse(n, SKIPPED);
  }

  /** Replication: whatever happened, with ids reused or not, a connected client that folds the notices on
      its connection knows exactly the members of each group it belongs to, and nobody elsewhere. */
  lemma GroupViewsReplicate(ops: seq<Op>, c: HostId, g: HostId)
    requires SafeRun(ops) && IsConnected(Run(ops), c)
    ensures c in Run(ops).inbox
    ensures GroupView(c, g, Run(ops).inbox[c]) ==
            if g in Run(ops).groups && c in Run(ops).groups[g] then Run(ops).groups[g] else {}
  {
    hide Run, SafeRun;
    RunExact(ops);
  }

  // --- At the limits -----------------------------------------------------------------------------

  function Accepts(k: nat): seq<Op> { seq(k, _ => Accepted) }

  /** With nobody leaving, the counter is all there is. */
  lemma {:induction false} CountsUp(k: nat)
    requires k <= ID_SPACE - 5
    ensures SafeRun(Accepts(k)) && Run(Accepts(k)).free == {}
    ensures Run(Accepts(k)).next == if k <= SKIPPED - FIRST_CLIENT then k + 3 else k + 4
  {
    if k > 0 {
      CountsUp(k - 1);
      assert Accepts(k)[..k - 1] == Accepts(k - 1);
    }
  }

  /** The last id is still a new one, but with it the counter wraps; the ids after it are 0, 1 and 2, and then one
      that is in use. */
  lemma WrappedCounterReissues(n: State)
    requires IdsConserved(n) && !HasId(n)
    ensures var t := Accept(Accept(Accept(Accept(n))));
            && AllocatedId(n) == ID_SPACE - 1 && !InUse(n, ID_SPACE - 1)
            && AllocatedId(Accept(n)) == 0 && AllocatedId(Accept(Accept(n))) == 1
            && AllocatedId(Accept(Accept(Accept(n)))) == 2
            && AllocatedId(t) == FIRST_CLIENT && (FIRST_CLIENT in t.peers || FIRST_CLIENT in t.groups)
  {
    assert WasIssued(n.next, FIRST_CLIENT) && !WasIssued(n.next, ID_SPACE - 1);
    assert InUse(n, FIRST_CLIENT) && !InUse(n, ID_SPACE - 1);
  }

  /** A run reaches that point. */
  lemma IdsRunOut()
    ensures exists ops :: SafeRun(ops) && IdsConserved(Run(ops)) && !HasId(Run(ops))
  {
    hide Run, SafeRun, Inv;
    var ops := Accepts(ID_SPACE - 5);
    CountsUp(ID_SPACE - 5);
    RunExact(ops);
    InvHasIds(Run(ops));
    assert SafeRun(ops) && !HasId(Run(ops));
  }

  lemma InvHasIds(n: State)
    ensures Inv(n) ==> IdsConserved(n)
  {
  }

  // --- Told too early ----------------------------------------------------------------------------

  /** Why a step may be unsafe: a peer that joined a group before it was connected never learns of its own group. */
  lemma EarlyJoinBreaksView()
    ensures exists ops, c, g ::
              && IsConnected(Run(ops), c) && c in Run(ops).inbox
              && GroupView(c, g, Run(ops).inbox[c]) != Membership(Run(ops), c, g)
  {
    hide Run, Step;
    var o1 := [Accepted];
    var o2 := o1 + [GroupCreated];
    var o3 := o2 + [GroupJoined(4, 3)];
    var o4 := o3 + [KeyExchanged(3)];
    var o5 := o4 + [Joined(3)];
    RunFirst(Accepted);
    RunNext(o1, GroupCreated);
    RunNext(o2, GroupJoined(4, 3));
    RunNext(o3, KeyExchanged(3));
    RunNext(o4, Joined(3));
    FirstSteps();
    assert IsConnected(Run(o5), 3) && GroupView(3, 4, Run(o5).inbox[3]) != Membership(Run(o5), 3, 4);
  }

  lemma RunFirst(op: Op)
    ensures Run([op]) == Step(INIT, op)
  {
    assert [op][..0] == [];
  }

  lemma RunNext(ops: seq<Op>, op: Op)
    ensures Run(ops + [op]) == Step(Run(ops), op)
  {
    assert (ops + [op])[..|ops|] == ops;
  }

  lemma FirstSteps()
    ensures var n := Step(Step(INIT, Accepted), GroupCreated);
            var t := Step(Step(Step(n, GroupJoined(4, 3)), KeyExchanged(3)), Joined(3));
            && IsConnected(t, 3) && 3 in t.inbox && GroupView(3, 4, t.inbox[3]) != Membership(t, 3, 4)
  {
    hide JoinGroup;
    var n := Step(Step(INIT, Accepted), GroupCreated);
    assert n == State(map[3 := AwaitingPublicKey], map[4 := {}], {}, 5, map[3 := []]);
    JoinShape(n, 4, 3);
    var j := Step(n, GroupJoined(4, 3));
    assert 3 in j.groups[4];
    var t := Step(Step(j, KeyExchanged(3)), Joined(3));
    assert 3 in Membership(t, 3, 4) && t.inbox[3] == [];
  }
}
