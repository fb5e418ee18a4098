/**
  The messenger's friendships: a request, the other side's acceptance, a deletion by either side.
 */
module Messenger {
  import opened Hosts

  /** A logged-on user and the names that have asked to befriend it. */
  datatype User = User(name: string, pending: set<string>)

  datatype State = State(users: map<HostId, User>, friends: map<string, set<string>>)

  /** One message or connection event.  `drops` says whether closing an older session of that user removed it. */
  datatype Step =
    | Logon(host: HostId, name: string, drops: bool)
    | Leave(host: HostId)
    | Ask(host: HostId, target: string)
    | Reply(host: HostId, requester: string, accept: bool)
    | Delete(host: HostId, target: string)

  const EMPTY := State(map[], map[])

  // --- The handlers ------------------------------------------------------------------------------

  function Sessions(users: map<HostId, User>, name: string): set<HostId> {
    set h | h in users && users[h].name == name
  }

  /** The first session with that name, in host order. */
  function Online(users: map<HostId, User>, name: string): (h: Option<HostId>)
    ensures h.None? <==> forall k | k in users :: users[k].name != name
    ensures h.Some? ==> h.value in users && users[h.value].name == name
    ensures h.Some? ==> forall k | k in users && users[k].name == name :: h.value <= k
  {
    var s := Sessions(users, name);
    assert forall k | k in users && users[k].name == name :: k in s;
    if s == {} then None else Some(Min(s))
  }

  function FriendsOf(friends: map<string, set<string>>, name: string): set<string> {
    if name in friends then friends[name] else {}
  }

  function DoLogon(s: State, host: HostId, name: string, drops: bool): State {
    var older := Online(s.users, name);
    var users := if older.Some? && drops then s.users - {older.value} else s.users;
    s.(users := users[host := User(name, {})])
  }

  function DoLeave(s: State, host: HostId): State { s.(users := s.users - {host}) }

  function DoAsk(s: State, host: HostId, target: string): State
    requires host in s.users
  {
    var name := s.users[host].name;
    var other := Online(s.users, target);
    if other.None? || target == name || target in FriendsOf(s.friends, name) then s
    else
      var u := s.users[other.value];
      s.(users := s.users[other.value := u.(pending := u.pending + {name})])
  }

  function DoReply(s: State, host: HostId, requester: string, accept: bool): State
    requires host in s.users
  {
    var u := s.users[host];
    if requester !in u.pending then s
    else
      var users := s.users[host := u.(pending := u.pending - {requester})];
      if !accept then s.(users := users)
      else
        var f := s.friends[u.name := FriendsOf(s.friends, u.name) + {requester}];
        State(users, f[requester := FriendsOf(f, requester) + {u.name}])
  }

  function DoDelete(s: State, host: HostId, target: string): State
    requires host in s.users
  {
    var name := s.users[host].name;
    var f := s.friends[name := FriendsOf(s.friends, name) - {target}];
    s.(friends := f[target := FriendsOf(f, target) - {name}])
  }

  /** Anything but a logon is ignored on a connection that has not logged on. */
  function Apply(s: State, step: Step): State {
    match step
    case Logon(host, name, drops) => DoLogon(s, host, name, drops)
    case Leave(host) => DoLeave(s, host)
    case Ask(host, target) => if host in s.users then DoAsk(s, host, target) else s
    case Reply(host, requester, accept) => if host in s.users then DoReply(s, host, requester, accept) else s
    case Delete(host, target) => if host in s.users then DoDelete(s, host, target) else s
  }

  function Run(s: State, steps: seq<Step>): State {
    if steps == [] then s else Apply(Run(s, steps[..|steps| - 1]), steps[|steps| - 1])
  }

  /** The state before step `k`. */
  function Before(steps: seq<Step>, k: nat): State
    requires k <= |steps|
  {
    Run(EMPTY, steps[..k])
  }

  // --- What a step means for two people ----------------------------------------------------------

  predicate Friends(s: State, a: string, b: string) { b in FriendsOf(s.friends, a) }

  predicate Pending(s: State, h: HostId, r: string) { h in s.users && r in s.users[h].pending }

  predicate SamePair(x: string, y: string, a: string, b: string) { (x == a && y == b) || (x == b && y == a) }

  /** One of the two accepts a request of the other that is waiting for an answer. */
  predicate Accepts(s: State, step: Step, a: string, b: string) {
    && step.Reply? && step.accept && Pending(s, step.host, step.requester)
    && SamePair(s.users[step.host].name, step.requester, a, b)
  }

  predicate Deletes(s: State, step: Step, a: string, b: string) {
    step.Delete? && step.host in s.users && SamePair(s.users[step.host].name, step.target, a, b)
  }

  /** `r` asks the user logged on at `h`. */
  predicate Asks(s: State, step: Step, h: HostId, r: string) {
    && step.Ask? && step.host in s.users && s.users[step.host].name == r
    && Online(s.users, step.target) == Some(h) && step.target != r && !Friends(s, r, step.target)
  }

  /** The request is answered, or the session it waits on ends. */
  predicate Settles(s: State, step: Step, h: HostId, r: string) {
    match step
    case Reply(host, requester, _) => host == h && requester == r
    case Leave(host) => host == h
    case Logon(host, name, drops) => host == h || (drops && Online(s.users, name) == Some(h))
    case _ => false
  }

  /** A friendship changes by acceptance and deletion and nothing else. */
  lemma FriendStep(s: State, step: Step, a: string, b: string)
    ensures Friends(Apply(s, step), a, b) <==> Accepts(s, step, a, b) || (Friends(s, a, b) && !Deletes(s, step, a, b))
  {
    hide Online;
  }

  /** A request waits from being made until it is settled. */
  lemma PendingStep(s: State, step: Step, h: HostId, r: string)
    ensures Pending(Apply(s, step), h, r) <==> Asks(s, step, h, r) || (Pending(s, h, r) && !Settles(s, step, h, r))
  {
    hide Sessions, FriendsOf;
    OnlineIs(s.users, if step.Logon? then step.name else if step.Ask? then step.target else "");
  }

  lemma OnlineIs(users: map<HostId, User>, name: string)
    ensures var h := Online(users, name); h.Some? ==> h.value in users && users[h.value].name == name
  {
  }

  // --- Since -------------------------------------------------------------------------------------

  /** Some step turned it on, and none turned it off after that. */
  predicate OnSince(on: seq<bool>, off: seq<bool>)
    requires |on| == |off|
  {
    exists i | 0 <= i < |on| :: on[i] && forall j | i < j < |on| :: !off[j]
  }

  lemma {:induction false} SinceLast(v: seq<bool>, on: seq<bool>, off: seq<bool>)
    requires |on| == |off| && |v| == |on| + 1 && !v[0]
    requires forall k | 0 <= k < |on| :: v[k + 1] <==> on[k] || (v[k] && !off[k])
    ensures v[|on|] <==> OnSince(on, off)
  {
    if |on| > 0 {
      var n := |on| - 1;
      SinceLast(v[..n + 1], on[..n], off[..n]);
      if on[n] { assert OnSince(on, off); }
      if OnSince(on[..n], off[..n]) && !off[n] {
        var i :| 0 <= i < n && on[..n][i] && forall j | i < j < n :: !off[..n][j];
        forall j | i < j < |on| ensures !off[j] { assert j < n ==> !off[..n][j]; }
        assert on[i];
      }
      if OnSince(on, off) && !on[n] {
        var i :| 0 <= i < |on| && on[i] && forall j | i < j < |on| :: !off[j];
        assert on[..n][i] && forall j | i < j < n :: !off[..n][j];
      }
    }
  }

  lemma BeforeNext(steps: seq<Step>, k: nat)
    requires k < |steps|
    ensures Before(steps, k + 1) == Apply(Before(steps, k), steps[k])
  {
    assert steps[..k + 1][..k] == steps[..k];
  }

  function AcceptsAt(steps: seq<Step>, a: string, b: string): (r: seq<bool>)
    ensures |r| == |steps|
  {
    seq(|steps|, k requires 0 <= k < |steps| => Accepts(Before(steps, k), steps[k], a, b))
  }

  function DeletesAt(steps: seq<Step>, a: string, b: string): (r: seq<bool>)
    ensures |r| == |steps|
  {
    seq(|steps|, k requires 0 <= k < |steps| => Deletes(Before(steps, k), steps[k], a, b))
  }

  function AsksAt(steps: seq<Step>, h: HostId, r: string): (q: seq<bool>)
    ensures |q| == |steps|
  {
    seq(|steps|, k requires 0 <= k < |steps| => Asks(Before(steps, k), steps[k], h, r))
  }

  function SettlesAt(steps: seq<Step>, h: HostId, r: string): (q: seq<bool>)
    ensures |q| == |steps|
  {
    seq(|steps|, k requires 0 <= k < |steps| => Settles(Before(steps, k), steps[k], h, r))
  }

  /** Over every run: two people are friends exactly when one accepted the other's waiting request and neither
      has deleted the friendship since. */
  lemma FriendsExactly(steps: seq<Step>, a: string, b: string)
    ensures Friends(Run(EMPTY, steps), a, b) <==> OnSince(AcceptsAt(steps, a, b), DeletesAt(steps, a, b))
  {
    hide Run, Apply, Accepts, Deletes, Friends, OnSince;
    var n := |steps|;
    var v := seq(n + 1, k requires 0 <= k <= n => Friends(Before(steps, k), a, b));
    NoOneYet(a, b, 0, "");
    assert steps[..0] == [] && steps[..n] == steps;
    forall k | 0 <= k < n
      ensures v[k + 1] <==> AcceptsAt(steps, a, b)[k] || (v[k] && !DeletesAt(steps, a, b)[k])
    {
      BeforeNext(steps, k);
      FriendStep(Before(steps, k), steps[k], a, b);
    }
    SinceLast(v, AcceptsAt(steps, a, b), DeletesAt(steps, a, b));
  }

  /** Over every run: a request waits exactly when it was made and not settled since. */
  lemma PendingExactly(steps: seq<Step>, h: HostId, r: string)
    ensures Pending(Run(EMPTY, steps), h, r) <==> OnSince(AsksAt(steps, h, r), SettlesAt(steps, h, r))
  {
    hide Run, Apply, Asks, Settles, Pending, OnSince;
    var n := |steps|;
    var v := seq(n + 1, k requires 0 <= k <= n => Pending(Before(steps, k), h, r));
    NoOneYet("", "", h, r);
    assert steps[..0] == [] && steps[..n] == steps;
    forall k | 0 <= k < n
      ensures v[k + 1] <==> AsksAt(steps, h, r)[k] || (v[k] && !SettlesAt(steps, h, r)[k])
    {
      BeforeNext(steps, k);
      PendingStep(Before(steps, k), steps[k], h, r);
    }
    SinceLast(v, AsksAt(steps, h, r), SettlesAt(steps, h, r));
  }

  lemma NoOneYet(a: string, b: string, h: HostId, r: string)
    ensures !Friends(Run(EMPTY, []), a, b) && !Pending(Run(EMPTY, []), h, r)
  {
  }

  // --- What follows ------------------------------------------------------------------------------

  /** No one waits for an answer from itself. */
  predicate Sound(s: State) { forall h | h in s.users :: s.users[h].name !in s.users[h].pending }

  lemma SoundStep(s: State, step: Step)
    requires Sound(s)
    ensures Sound(Apply(s, step))
  {
    hide Sessions, FriendsOf;
    OnlineIs(s.users, if step.Logon? then step.name else if step.Ask? then step.target else "");
  }

  lemma {:induction false} RunSound(steps: seq<Step>)
    ensures Sound(Run(EMPTY, steps))
  {
    hide Apply;
    if steps != [] {
      RunSound(steps[..|steps| - 1]);
      SoundStep(Run(EMPTY, steps[..|steps| - 1]), steps[|steps| - 1]);
    }
  }

  /** Over every run friendship is mutual, and no one is its own friend. */
  lemma FriendshipIsMutual(steps: seq<Step>, a: string, b: string)
    ensures Friends(Run(EMPTY, steps), a, b) <==> Friends(Run(EMPTY, steps), b, a)
    ensures !Friends(Run(EMPTY, steps), a, a)
  {
    hide Run, Apply, Friends;
    FriendsExactly(steps, a, b);
    FriendsExactly(steps, b, a);
    assert AcceptsAt(steps, a, b) == AcceptsAt(steps, b, a) && DeletesAt(steps, a, b) == DeletesAt(steps, b, a);
    FriendsExactly(steps, a, a);
    forall k | 0 <= k < |steps| ensures !AcceptsAt(steps, a, a)[k] {
      RunSound(steps[..k]);
    }
  }

  /** The user at `h` accepted `r` at step `i`, having been asked at step `j`, with nothing settled in between. */
  predicate Agreed(steps: seq<Step>, i: nat, j: nat, h: HostId, r: string)
    requires j < i < |steps|
  {
    && steps[i] == Reply(h, r, true) && Asks(Before(steps, j), steps[j], h, r)
    && forall k | j < k < i :: !Settles(Before(steps, k), steps[k], h, r)
  }

  lemma BeforePrefix(steps: seq<Step>, i: nat, k: nat)
    requires k <= i <= |steps|
    ensures Before(steps[..i], k) == Before(steps, k)
  {
    assert steps[..i][..k] == steps[..k];
  }

  lemma AcceptanceAnswers(steps: seq<Step>, i: nat, a: string, b: string)
    requires i < |steps| && Accepts(Before(steps, i), steps[i], a, b)
    ensures exists j :: 0 <= j < i && Agreed(steps, i, j, steps[i].host, steps[i].requester)
  {
    hide Run, Asks, Settles;
    var h, r := steps[i].host, steps[i].requester;
    var past := steps[..i];
    PendingExactly(past, h, r);
    var on, off := AsksAt(past, h, r), SettlesAt(past, h, r);
    assert OnSince(on, off);
    var j :| 0 <= j < |on| && on[j] && forall k | j < k < |on| :: !off[k];
    BeforePrefix(steps, i, j);
    forall k | j < k < i ensures !Settles(Before(steps, k), steps[k], h, r) {
      BeforePrefix(steps, i, k);
      assert !off[k];
    }
    assert Agreed(steps, i, j, h, r);
  }

  /** Over every run: behind every friendship stands a request by one, an acceptance of that very request by the
      other, and no deletion since the acceptance. */
  lemma FriendsAgreed(steps: seq<Step>, a: string, b: string)
    requires Friends(Run(EMPTY, steps), a, b)
    ensures exists i, j ::
              && 0 <= j < i < |steps| && Accepts(Before(steps, i), steps[i], a, b)
              && Agreed(steps, i, j, steps[i].host, steps[i].requester)
              && forall k | i < k < |steps| :: !Deletes(Before(steps, k), steps[k], a, b)
  {
    hide Run, Accepts, Deletes, Agreed, Friends;
    FriendsExactly(steps, a, b);
    var on, off := AcceptsAt(steps, a, b), DeletesAt(steps, a, b);
    var i :| 0 <= i < |on| && on[i] && forall k | i < k < |on| :: !off[k];
    AcceptanceAnswers(steps, i, a, b);
    AcceptanceIsReply(Before(steps, i), steps[i], a, b);
    var j :| 0 <= j < i && Agreed(steps, i, j, steps[i].host, steps[i].requester);
    forall k | i < k < |steps| ensures !Deletes(Before(steps, k), steps[k], a, b) {
      assert !off[k];
    }
  }

  lemma AcceptanceIsReply(s: State, step: Step, a: string, b: string)
    ensures Accepts(s, step, a, b) ==> step.Reply?
  {
  }

  // --- When a deletion is final ------------------------------------------------------------------

  /** A request between the two is waiting for an answer. */
  predicate Outstanding(s: State, a: string, b: string) {
    exists h | h in s.users ::
      (s.users[h].name == a && b in s.users[h].pending) || (s.users[h].name == b && a in s.users[h].pending)
  }

  /** One of the two asks the other. */
  predicate AsksBetween(s: State, step: Step, a: string, b: string) {
    step.Ask? && step.host in s.users && SamePair(s.users[step.host].name, step.target, a, b)
  }

  predicate NoneAsks(s: State, steps: seq<Step>, a: string, b: string) {
    forall k | 0 <= k < |steps| :: !AsksBetween(Run(s, steps[..k]), steps[k], a, b)
  }

  /** Unless one of them asks again, the two never become friends again. */
  ghost predicate Final(s: State, a: string, b: string) {
    forall steps: seq<Step> :: NoneAsks(s, steps, a, b) ==> !Friends(Run(s, steps), a, b)
  }

  lemma OutstandingStep(s: State, step: Step, a: string, b: string)
    requires !Outstanding(s, a, b) && !AsksBetween(s, step, a, b)
    ensures !Outstanding(Apply(s, step), a, b) && !Accepts(s, step, a, b)
  {
    hide Sessions, FriendsOf;
    OnlineIs(s.users, if step.Logon? then step.name else if step.Ask? then step.target else "");
  }

  lemma {:induction false} StaysApart(s: State, steps: seq<Step>, a: string, b: string)
    requires !Outstanding(s, a, b) && !Friends(s, a, b) && NoneAsks(s, steps, a, b)
    ensures !Outstanding(Run(s, steps), a, b) && !Friends(Run(s, steps), a, b)
  {
    hide Apply, Outstanding, Friends, Accepts, AsksBetween, Deletes;
    if steps != [] {
      var k := |steps| - 1;
      forall i | 0 <= i < k ensures !AsksBetween(Run(s, steps[..k][..i]), steps[..k][i], a, b) {
        assert steps[..k][..i] == steps[..i];
      }
      StaysApart(s, steps[..k], a, b);
      OutstandingStep(Run(s, steps[..k]), steps[k], a, b);
      FriendStep(Run(s, steps[..k]), steps[k], a, b);
    }
  }

  /** A deletion leaves any request between the two waiting. */
  lemma DeletionKeepsRequests(s: State, step: Step, a: string, b: string)
    requires Deletes(s, step, a, b)
    ensures Outstanding(Apply(s, step), a, b) <==> Outstanding(s, a, b)
    ensures !Friends(Apply(s, step), a, b)
  {
  }

  /** A deletion is final, up to a new request, exactly when no request between the two was waiting. */
  lemma DeletionFinalExactly(s: State, step: Step, a: string, b: string)
    requires Deletes(s, step, a, b)
    ensures Final(Apply(s, step), a, b) <==> !Outstanding(s, a, b)
  {
    hide Apply, Run, Friends;
    var t := Apply(s, step);
    DeletionKeepsRequests(s, step, a, b);
    if Outstanding(s, a, b) {
      StaleAcceptance(t, a, b);
    } else {
      forall steps: seq<Step> | NoneAsks(t, steps, a, b) ensures !Friends(Run(t, steps), a, b) {
        StaysApart(t, steps, a, b);
      }
    }
  }

  lemma StaleAcceptance(s: State, a: string, b: string)
    requires Outstanding(s, a, b)
    ensures !Final(s, a, b)
  {
    var h :| h in s.users &&
      ((s.users[h].name == a && b in s.users[h].pending) || (s.users[h].name == b && a in s.users[h].pending));
    var reply := Reply(h, if s.users[h].name == a && b in s.users[h].pending then b else a, true);
    assert [reply][..0] == [];
    assert Run(s, [reply]) == Apply(s, reply);
    FriendStep(s, reply, a, b);
    assert NoneAsks(s, [reply], a, b);
  }

  /** Two people ask each other; one accepts, one deletes, and the other's leftover acceptance makes them friends
      again though no one has asked since. */
  lemma CrossedRequestsOutliveDeletion()
    ensures var s := Run(EMPTY, [Logon(3, "ann", false), Logon(4, "bob", false), Ask(3, "bob"), Ask(4, "ann"),
                                 Reply(4, "ann", true), Delete(3, "bob")]);
            !Friends(s, "ann", "bob") && Friends(Run(s, [Reply(3, "bob", true)]), "ann", "bob")
  {
    hide Run, DoReply, DoDelete;
    assert "ann"[0] != "bob"[0];
    var s2 := Apply(Apply(EMPTY, Logon(3, "ann", false)), Logon(4, "bob", false));
    assert s2.users == map[3 := User("ann", {}), 4 := User("bob", {})];
    OnlyOne(s2.users, 4);
    var s3 := Apply(s2, Ask(3, "bob"));
    assert s3.users[4].pending == {"ann"};
    assert s3.users == map[3 := User("ann", {}), 4 := User("bob", {"ann"})];
    OnlyOne(s3.users, 3);
    var s4 := Apply(s3, Ask(4, "ann"));
    assert s4.users[3].pending == {"bob"};
    assert s4.users == map[3 := User("ann", {"bob"}), 4 := User("bob", {"ann"})];
    RunSix(Logon(3, "ann", false), Logon(4, "bob", false), Ask(3, "bob"), Ask(4, "ann"),
      Reply(4, "ann", true), Delete(3, "bob"));
    AcceptDeleteAccept(s4);
  }

  lemma OnlyOne(users: map<HostId, User>, h: HostId)
    requires h in users && forall k | k in users :: users[k].name == users[h].name ==> k == h
    ensures Online(users, users[h].name) == Some(h)
  {
  }

  lemma AcceptDeleteAccept(s: State)
    requires s.users == map[3 := User("ann", {"bob"}), 4 := User("bob", {"ann"})]
    ensures var t := Apply(Apply(s, Reply(4, "ann", true)), Delete(3, "bob"));
            !Friends(t, "ann", "bob") && Friends(Run(t, [Reply(3, "bob", true)]), "ann", "bob")
  {
    hide Run;
    assert "ann"[0] != "bob"[0];
    var t := Apply(Apply(s, Reply(4, "ann", true)), Delete(3, "bob"));
    RunOne(t, [], Reply(3, "bob", true));
    RunNone(t);
    assert [] + [Reply(3, "bob", true)] == [Reply(3, "bob", true)];
  }

  lemma RunOne(s: State, steps: seq<Step>, step: Step)
    ensures Run(s, steps + [step]) == Apply(Run(s, steps), step)
  {
    assert (steps + [step])[..|steps|] == steps;
  }

  lemma RunNone(s: State)
    ensures Run(s, []) == s
  {
  }

  lemma RunSix(a: Step, b: Step, c: Step, d: Step, e: Step, f: Step)
    ensures Run(EMPTY, [a, b, c, d, e, f]) == Apply(Apply(Apply(Apply(Apply(Apply(EMPTY, a), b), c), d), e), f)
  {
    hide Apply, Run;
    RunNone(EMPTY);
    RunOne(EMPTY, [], a);
    RunOne(EMPTY, [a], b);
    RunOne(EMPTY, [a, b], c);
    RunOne(EMPTY, [a, b, c], d);
    RunOne(EMPTY, [a, b, c, d], e);
    RunOne(EMPTY, [a, b, c, d, e], f);
    assert [] + [a] == [a] && [a] + [b] == [a, b] && [a, b] + [c] == [a, b, c] && [a, b, c] + [d] == [a, b, c, d];
    assert [a, b, c, d] + [e] == [a, b, c, d, e] && [a, b, c, d, e] + [f] == [a, b, c, d, e, f];
  }
}
