/**
  The messenger object: the user table and the friendship sets, updated in place.
 */
module MessengerServer {
  import opened Hosts
  import opened Messenger

  class Server {
    var users: map<HostId, User>
    var friends: map<string, set<string>>

    ghost function Model(): State
      reads this
    {
      State(users, friends)
    }

    constructor ()
      ensures Model() == EMPTY
    {
      users := map[];
      friends := map[];
    }

    /** The first session in host order that has the name. */
    method FindOnline(name: string) returns (found: Option<HostId>)
      ensures found == Online(users, name)
    {
      hide Online;
      var hosts := Ascending(users.Keys);
      for i := 0 to |hosts|
        invariant forall k | 0 <= k < i :: users[hosts[k]].name != name
      {
        if users[hosts[i]].name == name {
          FirstIsOnline(users, name, i);
          return Some(hosts[i]);
        }
      }
      NobodyOnline(users, name);
      return None;
    }

    method OnLogon(host: HostId, name: string, drops: bool)
      modifies this
      ensures Model() == Apply(old(Model()), Logon(host, name, drops))
    {
      hide Online;
      var older := FindOnline(name);
      if older.Some? && drops {
        OnClientLeave(older.value);
      }
      users := users[host := User(name, {})];
    }

    method OnClientLeave(host: HostId)
      modifies this
      ensures Model() == Apply(old(Model()), Leave(host))
    {
      if host !in users {
        assert users - {host} == users;
        return;
      }
      users := users - {host};
    }

    method AddFriend(host: HostId, target: string)
      modifies this
      ensures Model() == Apply(old(Model()), Ask(host, target))
    {
      hide Online;
      if host !in users {
        return;
      }
      var name := users[host].name;
      var other := FindOnline(target);
      if other.None? || target == name {
        return;
      }
      if target in FriendsOf(friends, name) {
        return;
      }
      OnlineIs(users, target);
      var u := users[other.value];
      users := users[other.value := u.(pending := u.pending + {name})];
    }

    method AnswerFriend(host: HostId, requester: string, accept: bool)
      modifies this
      ensures Model() == Apply(old(Model()), Reply(host, requester, accept))
    {
      if host !in users {
        return;
      }
      var u := users[host];
      if requester !in u.pending {
        return;
      }
      users := users[host := u.(pending := u.pending - {requester})];
      if accept {
        friends := friends[u.name := FriendsOf(friends, u.name) + {requester}];
        friends := friends[requester := FriendsOf(friends, requester) + {u.name}];
      }
    }

    method DeleteFriend(host: HostId, target: string)
      modifies this
      ensures Model() == Apply(old(Model()), Delete(host, target))
    {
      if host !in users {
        return;
      }
      var name := users[host].name;
      friends := friends[name := FriendsOf(friends, name) - {target}];
      friends := friends[target := FriendsOf(friends, target) - {name}];
    }
  }

  lemma FirstIsOnline(users: map<HostId, User>, name: string, i: nat)
    requires i < |Ascending(users.Keys)| && users[Ascending(users.Keys)[i]].name == name
    requires forall k | 0 <= k < i :: users[Ascending(users.Keys)[k]].name != name
    ensures Online(users, name) == Some(Ascending(users.Keys)[i])
  {
    var hosts := Ascending(users.Keys);
    var h := Online(users, name).value;
    assert h in hosts;
    var k :| 0 <= k < |hosts| && hosts[k] == h;
    if i < k { AscendingIncreases(users.Keys, i, k); }
  }

  lemma NobodyOnline(users: map<HostId, User>, name: string)
    requires forall k | 0 <= k < |Ascending(users.Keys)| :: users[Ascending(users.Keys)[k]].name != name
    ensures Online(users, name) == None
  {
    forall h | h in users ensures users[h].name != name {
      assert h in Ascending(users.Keys);
    }
  }
}
