/**
  The hub's indices: connections by client id and by user, and subscribers by channel, spread over
  shards that a hash of the user or channel name selects.
 */
module Hub {
  import S = Subscriptions

  datatype Client = Client(id: string, user: string)

  /** The user index holds exactly the connections, grouped by user, and no empty group. */
  ghost predicate Indexed(conns: map<string, Client>, users: map<string, set<string>>) {
    && (forall id :: id in conns ==> conns[id].user in users && id in users[conns[id].user])
    && (forall u :: u in users ==> users[u] != {})
    && (forall u, id :: u in users && id in users[u] ==> id in conns && conns[id].user == u)
  }

  function Grouped(users: map<string, set<string>>, u: string): set<string> {
    if u in users then users[u] else {}
  }

  function AddUser(users: map<string, set<string>>, c: Client): map<string, set<string>> {
    users[c.user := Grouped(users, c.user) + {c.id}]
  }

  function RemoveUser(users: map<string, set<string>>, c: Client): map<string, set<string>> {
    if c.id !in Grouped(users, c.user) then users
    else if users[c.user] - {c.id} == {} then users - {c.user}
    else users[c.user := users[c.user] - {c.id}]
  }

  /** A connection under the same id, if there is one, belongs to the same user. */
  predicate SameUser(conns: map<string, Client>, c: Client) {
    c.id in conns ==> conns[c.id].user == c.user
  }

  /** Adding a connection keeps the index exactly when no connection of another user has its id. */
  lemma AddIndexedIff(conns: map<string, Client>, users: map<string, set<string>>, c: Client)
    requires Indexed(conns, users)
    ensures Indexed(conns[c.id := c], AddUser(users, c)) <==> SameUser(conns, c)
  {
    var conns', users' := conns[c.id := c], AddUser(users, c);
    if !SameUser(conns, c) {
      var u := conns[c.id].user;
      assert u in users' && c.id in users'[u] && conns'[c.id].user != u;
    }
  }

  /** So does removing one. */
  lemma RemoveIndexedIff(conns: map<string, Client>, users: map<string, set<string>>, c: Client)
    requires Indexed(conns, users)
    ensures Indexed(conns - {c.id}, RemoveUser(users, c)) <==> SameUser(conns, c)
  {
    var conns', users' := conns - {c.id}, RemoveUser(users, c);
    if !SameUser(conns, c) {
      var u := conns[c.id].user;
      assert c.id !in Grouped(users, c.user);
      assert u in users' && c.id in users'[u] && c.id !in conns';
    } else {
      forall u, id | u in users' && id in users'[u]
        ensures id in (conns - {c.id}) && conns[id].user == u
      {
        assert id in users[u];
      }
    }
  }

  /** A client id that comes back with another user is listed under both. */
  lemma ChangedUserBreaksIndex()
    ensures var c, d := Client("1", "ann"), Client("1", "bob");
            var conns, users := map[c.id := c], AddUser(map[], c);
            && Indexed(conns, users)
            && !Indexed(conns[d.id := d], AddUser(users, d)) && !Indexed(conns - {d.id}, RemoveUser(users, d))
  {
    var c, d := Client("1", "ann"), Client("1", "bob");
    AddIndexedIff(map[], map[], c);
    assert (map[])[c.id := c] == map[c.id := c];
    AddIndexedIff(map[c.id := c], AddUser(map[], c), d);
    RemoveIndexedIff(map[c.id := c], AddUser(map[], c), d);
  }

  /** The ids of the connections of some users. */
  ghost function Owned(conns: map<string, Client>, us: set<string>): set<string> {
    set id | id in conns && conns[id].user in us
  }

  lemma OwnedSplit(conns: map<string, Client>, users: map<string, set<string>>, us: set<string>, u: string)
    requires Indexed(conns, users) && us <= users.Keys && u in us
    ensures |Owned(conns, us)| == |users[u]| + |Owned(conns, us - {u})|
  {
    assert Owned(conns, us) == users[u] + Owned(conns, us - {u});
    assert users[u] !! Owned(conns, us - {u});
  }

  lemma OwnedAll(conns: map<string, Client>, users: map<string, set<string>>)
    requires Indexed(conns, users)
    ensures |Owned(conns, users.Keys)| == |conns| && |Owned(conns, {})| == 0
  {
    assert Owned(conns, users.Keys) == conns.Keys && Owned(conns, {}) == {};
  }

  class ConnShard {
    var conns: map<string, Client>
    var users: map<string, set<string>>

    constructor ()
      ensures conns == map[] && users == map[]
    {
      conns, users := map[], map[];
    }

    method Add(c: Client)
      modifies this
      ensures conns == old(conns)[c.id := c] && users == AddUser(old(users), c)
    {
      conns := conns[c.id := c];
      if c.user !in users {
        users := users[c.user := {}];
      }
      users := users[c.user := users[c.user] + {c.id}];
    }

    method Remove(c: Client)
      modifies this
      ensures conns == old(conns) - {c.id} && users == RemoveUser(old(users), c)
    {
      conns := conns - {c.id};
      if c.user !in users {
        return;
      }
      if c.id !in users[c.user] {
        return;
      }
      users := users[c.user := users[c.user] - {c.id}];
      if |users[c.user]| == 0 {
        users := users - {c.user};
      }
    }

    /** Adds up the groups. */
    method NumClients() returns (total: nat)
      requires Indexed(conns, users)
      ensures total == |conns|
    {
      hide Indexed, Owned;
      OwnedAll(conns, users);
      total := 0;
      var rest := users.Keys;
      while rest != {}
        invariant rest <= users.Keys
        invariant total + |Owned(conns, rest)| == |conns|
        decreases rest
      {
        var u :| u in rest;
        OwnedSplit(conns, users, rest, u);
        total := total + |users[u]|;
        rest := rest - {u};
      }
    }

    method NumUsers() returns (n: nat)
      requires Indexed(conns, users)
      ensures n == |UsersOf(conns)|
    {
      ghost var us := UsersOf(conns);
      forall u ensures u in us <==> u in users.Keys {
        if u in users {
          var id :| id in users[u];
          assert conns[id].user == u;
        }
      }
      assert us == users.Keys;
      return |users|;
    }

    /** The connections of one user. */
    method UserConnections(userId: string) returns (r: map<string, Client>)
      requires Indexed(conns, users)
      ensures r == map id | id in conns && conns[id].user == userId :: conns[id]
    {
      if userId !in users {
        return map[];
      }
      r := map[];
      var rest := users[userId];
      while rest != {}
        invariant rest <= users[userId]
        invariant r == map id | id in users[userId] && id !in rest && id in conns :: conns[id]
        decreases rest
      {
        var uid :| uid in rest;
        rest := rest - {uid};
        if uid in conns {
          r := r[uid := conns[uid]];
        }
      }
    }
  }

  const NumHubShards := 64

  /** The hash of a name picks one of the shards. */
  type Index = string -> ShardIndex

  type ShardIndex = n: nat | n < NumHubShards

  /** The users of a set of connections. */
  ghost function UsersOf(conns: map<string, Client>): set<string> {
    set id | id in conns :: conns[id].user
  }

  /** The connections whose user hashes below n. */
  ghost function Below(all: map<string, Client>, index: Index, n: nat): map<string, Client> {
    map id | id in all && index(all[id].user) < n :: all[id]
  }

  /** The connections whose user hashes to n. */
  ghost function Slice(all: map<string, Client>, index: Index, n: nat): map<string, Client> {
    map id | id in all && index(all[id].user) == n :: all[id]
  }

  lemma BelowNext(all: map<string, Client>, index: Index, n: nat)
    ensures Below(all, index, n + 1) == Below(all, index, n) + Slice(all, index, n)
  {
  }

  lemma BelowNextSize(all: map<string, Client>, index: Index, n: nat)
    ensures |Below(all, index, n + 1)| == |Below(all, index, n)| + |Slice(all, index, n)|
  {
    BelowNext(all, index, n);
    UnionSize(Below(all, index, n), Slice(all, index, n));
  }

  lemma UnionSize(a: map<string, Client>, b: map<string, Client>)
    requires a.Keys !! b.Keys
    ensures |a + b| == |a| + |b|
  {
  }

  lemma UsersNext(all: map<string, Client>, index: Index, n: nat)
    ensures |UsersOf(Below(all, index, n + 1))| == |UsersOf(Below(all, index, n))| + |UsersOf(Slice(all, index, n))|
  {
    var b, s := Below(all, index, n), Slice(all, index, n);
    BelowNext(all, index, n);
    UsersUnion(b, s);
    assert UsersOf(b) !! UsersOf(s);
  }

  lemma UsersUnion(a: map<string, Client>, b: map<string, Client>)
    requires a.Keys !! b.Keys
    ensures UsersOf(a + b) == UsersOf(a) + UsersOf(b)
  {
  }

  /** What one client more or less means to each shard. */
  lemma SliceStep(all: map<string, Client>, index: Index, c: Client, n: nat)
    requires SameUser(all, c)
    ensures Slice(all[c.id := c], index, n) ==
            if n == index(c.user) then Slice(all, index, n)[c.id := c] else Slice(all, index, n)
    ensures Slice(all - {c.id}, index, n) ==
            if n == index(c.user) then Slice(all, index, n) - {c.id} else Slice(all, index, n)
    ensures SameUser(Slice(all, index, n), c)
  {
  }

  datatype Shard = Shard(conns: map<string, Client>, users: map<string, set<string>>)

  /** The shards hold the connections `all`, each under its id: every shard holds, correctly indexed,
      those whose user hashes to it. */
  ghost predicate Holds(shards: seq<Shard>, all: map<string, Client>, index: Index) {
    && |shards| == NumHubShards
    && (forall id :: id in all ==> all[id].id == id)
    && (forall i :: 0 <= i < |shards| ==> shards[i].conns == Slice(all, index, i) && Indexed(shards[i].conns, shards[i].users))
  }

  function Added(shards: seq<Shard>, index: Index, c: Client): seq<Shard>
    requires |shards| == NumHubShards
  {
    var sh := shards[index(c.user)];
    shards[index(c.user) := Shard(sh.conns[c.id := c], AddUser(sh.users, c))]
  }

  function Removed(shards: seq<Shard>, index: Index, c: Client): seq<Shard>
    requires |shards| == NumHubShards
  {
    var sh := shards[index(c.user)];
    shards[index(c.user) := Shard(sh.conns - {c.id}, RemoveUser(sh.users, c))]
  }

  /** Adding a client at the shard of its user, when its id has no other user. */
  lemma HoldsAdd(shards: seq<Shard>, all: map<string, Client>, index: Index, c: Client)
    requires Holds(shards, all, index) && SameUser(all, c)
    ensures Holds(Added(shards, index, c), all[c.id := c], index)
  {
    hide Slice, Indexed, AddUser;
    var k := index(c.user);
    var sh, shards' := shards[k], Added(shards, index, c);
    SliceStep(all, index, c, k);
    AddIndexedIff(sh.conns, sh.users, c);
    forall i | 0 <= i < |shards'|
      ensures shards'[i].conns == Slice(all[c.id := c], index, i) && Indexed(shards'[i].conns, shards'[i].users)
    {
      SliceStep(all, index, c, i);
    }
  }

  /** Removing one. */
  lemma HoldsRemove(shards: seq<Shard>, all: map<string, Client>, index: Index, c: Client)
    requires Holds(shards, all, index) && SameUser(all, c)
    ensures Holds(Removed(shards, index, c), all - {c.id}, index)
  {
    hide Slice, Indexed, RemoveUser;
    var k := index(c.user);
    var sh, shards' := shards[k], Removed(shards, index, c);
    SliceStep(all, index, c, k);
    RemoveIndexedIff(sh.conns, sh.users, c);
    forall i | 0 <= i < |shards'|
      ensures shards'[i].conns == Slice(all - {c.id}, index, i) && Indexed(shards'[i].conns, shards'[i].users)
    {
      SliceStep(all, index, c, i);
    }
  }

  /** The shard of the user that an id had keeps the id when another user's shard is changed. */
  lemma ElsewhereStays(shards: seq<Shard>, all: map<string, Client>, index: Index, c: Client)
    requires Holds(shards, all, index) && !SameUser(all, c)
    ensures var i := index(all[c.id].user);
            && c.id in shards[i].conns && shards[i].conns[c.id].user != c.user
            && (i != index(c.user) ==> c.id !in Slice(all[c.id := c], index, i))
            && c.id !in Slice(all - {c.id}, index, i)
  {
  }

  /** The shards go on holding the connections exactly when no connection of another user has the
      client's id. */
  lemma HoldsAddIff(shards: seq<Shard>, all: map<string, Client>, index: Index, c: Client)
    requires Holds(shards, all, index)
    ensures Holds(Added(shards, index, c), all[c.id := c], index) <==> SameUser(all, c)
  {
    if SameUser(all, c) {
      HoldsAdd(shards, all, index, c);
    } else {
      ElsewhereStays(shards, all, index, c);
      hide Slice, Indexed, AddUser;
      var i, k := index(all[c.id].user), index(c.user);
      AddIndexedIff(shards[k].conns, shards[k].users, c);
      var shards' := Added(shards, index, c);
      assert i != k ==> shards'[i].conns != Slice(all[c.id := c], index, i);
      assert i == k ==> !Indexed(shards'[i].conns, shards'[i].users);
    }
  }

  lemma HoldsRemoveIff(shards: seq<Shard>, all: map<string, Client>, index: Index, c: Client)
    requires Holds(shards, all, index)
    ensures Holds(Removed(shards, index, c), all - {c.id}, index) <==> SameUser(all, c)
  {
    if SameUser(all, c) {
      HoldsRemove(shards, all, index, c);
    } else {
      ElsewhereStays(shards, all, index, c);
      hide Slice, Indexed, RemoveUser;
      var i, k := index(all[c.id].user), index(c.user);
      RemoveIndexedIff(shards[k].conns, shards[k].users, c);
      var shards' := Removed(shards, index, c);
      assert i != k ==> shards'[i].conns != Slice(all - {c.id}, index, i);
      assert i == k ==> !Indexed(shards'[i].conns, shards'[i].users);
    }
  }

  class Hub {
    const connShards: seq<ConnShard>
    const index: Index
    ghost var all: map<string, Client>

    ghost function Shards(): (r: seq<Shard>)
      reads connShards
      ensures |r| == |connShards|
    {
      seq(|connShards|, i requires 0 <= i < |connShards| reads connShards => Shard(connShards[i].conns, connShards[i].users))
    }

    /** The shards that the constructor makes. */
    ghost predicate Sharded() {
      |connShards| == NumHubShards && forall i, j :: 0 <= i < j < |connShards| ==> connShards[i] != connShards[j]
    }

    /** `all` are the open connections. */
    ghost predicate Valid()
      reads this, connShards
    {
      Sharded() && Holds(Shards(), all, index)
    }

    constructor (index: Index)
      ensures Valid() && all == map[] && this.index == index && fresh(connShards)
    {
      var shards: seq<ConnShard> := [];
      while |shards| < NumHubShards
        invariant |shards| <= NumHubShards
        invariant fresh(shards)
        invariant forall i, j :: 0 <= i < j < |shards| ==> shards[i] != shards[j]
        invariant forall i :: 0 <= i < |shards| ==> shards[i].conns == map[] && shards[i].users == map[]
      {
        var shard := new ConnShard();
        shards := shards + [shard];
      }
      connShards, this.index, all := shards, index, map[];
    }

    /** The hub stays valid exactly when no connection of another user has the client's id. */
    method Add(c: Client)
      requires Sharded()
      modifies this, connShards
      ensures Shards() == Added(old(Shards()), index, c) && all == old(all)[c.id := c]
      ensures old(Valid()) ==> (Valid() <==> SameUser(old(all), c))
    {
      ghost var shards := Shards();
      if Valid() {
        HoldsAddIff(shards, all, index, c);
      }
      hide Holds, AddUser;
      connShards[index(c.user)].Add(c);
      all := all[c.id := c];
      assert Shards() == Added(shards, index, c);
    }

    method Remove(c: Client)
      requires Sharded()
      modifies this, connShards
      ensures Shards() == Removed(old(Shards()), index, c) && all == old(all) - {c.id}
      ensures old(Valid()) ==> (Valid() <==> SameUser(old(all), c))
    {
      ghost var shards := Shards();
      if Valid() {
        HoldsRemoveIff(shards, all, index, c);
      }
      hide Holds, RemoveUser;
      connShards[index(c.user)].Remove(c);
      all := all - {c.id};
      assert Shards() == Removed(shards, index, c);
    }

    /** What Valid says of one shard. */
    lemma At(i: nat)
      requires Valid() && i < |connShards|
      ensures connShards[i].conns == Slice(all, index, i) && Indexed(connShards[i].conns, connShards[i].users)
    {
    }

    lemma AllBelow()
      requires Valid()
      ensures |connShards| == NumHubShards
      ensures Below(all, index, NumHubShards) == all && Below(all, index, 0) == map[]
      ensures UsersOf(Below(all, index, 0)) == {}
    {
    }

    /** How many connections, and how many users, the first n shards hold. */
    ghost function Clients(n: nat): nat
      reads this
    {
      |Below(all, index, n)|
    }

    ghost function Users(n: nat): nat
      reads this
    {
      |UsersOf(Below(all, index, n))|
    }

    lemma Counted()
      requires Valid()
      ensures |connShards| == NumHubShards
      ensures Clients(0) == 0 && Clients(NumHubShards) == |all|
      ensures Users(0) == 0 && Users(NumHubShards) == |UsersOf(all)|
    {
      AllBelow();
    }

    lemma CountedNext(i: nat)
      requires Valid() && i < |connShards|
      ensures Clients(i + 1) == Clients(i) + |connShards[i].conns|
      ensures Users(i + 1) == Users(i) + |UsersOf(connShards[i].conns)|
      ensures Indexed(connShards[i].conns, connShards[i].users)
    {
      At(i);
      hide Valid, Slice, Below, UsersOf, Indexed;
      BelowNextSize(all, index, i);
      UsersNext(all, index, i);
    }

    method Connections() returns (conns: map<string, Client>)
      requires Valid()
      ensures conns == all
    {
      hide Valid, Slice, Below, UsersOf, Indexed;
      AllBelow();
      conns := map[];
      for i := 0 to |connShards|
        invariant conns == Below(all, index, i)
      {
        At(i);
        BelowNext(all, index, i);
        conns := conns + connShards[i].conns;
      }
      assert conns == all;
    }

    method NumClients() returns (total: nat)
      requires Valid()
      ensures total == |all|
    {
      hide Valid, Indexed, Clients, Users, UsersOf;
      Counted();
      total := 0;
      for i := 0 to |connShards|
        invariant total == Clients(i)
      {
        CountedNext(i);
        var n := connShards[i].NumClients();
        total := total + n;
      }
    }

    /** A user's connections are all in one shard, so that no user is counted twice. */
    method NumUsers() returns (total: nat)
      requires Valid()
      ensures total == |UsersOf(all)|
    {
      hide Valid, Indexed, Clients, Users, UsersOf;
      Counted();
      total := 0;
      for i := 0 to |connShards|
        invariant total == Users(i)
      {
        CountedNext(i);
        var n := connShards[i].NumUsers();
        total := total + n;
      }
    }

    method UserConnections(userId: string) returns (r: map<string, Client>)
      requires Valid()
      ensures r == map id | id in all && all[id].user == userId :: all[id]
    {
      AllBelow();
      At(index(userId));
      hide Valid, Below, Indexed;
      r := connShards[index(userId)].UserConnections(userId);
    }
  }

  class SubShard {
    var subs: S.Subs

    constructor ()
      ensures subs == map[]
    {
      subs := map[];
    }

    method AddSub(ch: string, uid: string) returns (first: bool)
      modifies this
      ensures (subs, first) == S.AddSub(old(subs), ch, uid)
    {
      var ok := ch in subs;
      if !ok {
        subs := subs[ch := {}];
      }
      subs := subs[ch := subs[ch] + {uid}];
      assert subs == S.AddSub(old(subs), ch, uid).0;
      return !ok;
    }

    method RemoveSub(ch: string, uid: string) returns (empty: bool)
      modifies this
      ensures (subs, empty) == S.RemoveSub(old(subs), ch, uid)
    {
      if ch !in subs {
        return true;
      }
      if uid !in subs[ch] {
        return true;
      }
      subs := subs[ch := subs[ch] - {uid}];
      if |subs[ch]| == 0 {
        subs := subs - {ch};
        assert subs == S.RemoveSub(old(subs), ch, uid).0;
        return true;
      }
      return false;
    }

    method NumSubscribers(ch: string) returns (n: nat)
      ensures n == |S.Subscribers(subs, ch)|
    {
      if ch !in subs {
        return 0;
      }
      return |subs[ch]|;
    }
  }
}
