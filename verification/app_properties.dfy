/**
 Properties of the chat engine that relate its operations to one another and to
 the reference definitions in `Users` and `Commands`.
 */
module AppProperties {
  import opened Wrappers
  import opened Users
  import opened Commands
  import opened ChatApp

  /** Number of channels in the list named `n`. */
  function ChannelCount(cs: seq<Channel>, n: string): (count: nat)
    ensures count <= |cs|
    decreases |cs|
  {
    if |cs| == 0 then 0 else (if cs[0].name == n then 1 else 0) + ChannelCount(cs[1..], n)
  }

  lemma {:induction false} ChannelCountSnoc(cs: seq<Channel>, c: Channel, n: string)
    ensures ChannelCount(cs + [c], n) == ChannelCount(cs, n) + (if c.name == n then 1 else 0)
    decreases |cs|
  {
    if |cs| == 0 {
      assert cs + [c] == [c];
      assert [c][1..] == [];
    } else {
      assert (cs + [c])[0] == cs[0];
      assert (cs + [c])[1..] == cs[1..] + [c];
      ChannelCountSnoc(cs[1..], c, n);
    }
  }

  /** A fresh engine: it is valid, only `#general` exists, nobody is connected, no command answers. */
  lemma NewAppState<V>(n: string, c: string, m: string, msg: string, u: User)
    ensures Valid(NewApp<V>())
    ensures NewApp<V>().users == [] && NewApp<V>().commands == []
    ensures |NewApp<V>().channels| == 1 && ChannelCount(NewApp<V>().channels, General) == 1
    ensures ChannelExists(NewApp<V>(), n) <==> n == General
    ensures GetUser(NewApp<V>(), n) == None
    ensures ChannelMessage(NewApp<V>(), c, m) == []
    ensures Handle(NewApp<V>(), msg, u) == None
  {
  }

  /** After `createChannel(n)`, the existing channels are those before plus `n`. */
  lemma CreateChannelExists<V>(a: App<V>, n: string, x: string)
    ensures ChannelExists(CreateChannel(a, n), x) <==> ChannelExists(a, x) || x == n
  {
  }

  /** `createChannel` does not deduplicate: each call adds one more channel named `n`. */
  lemma CreateChannelCounts<V>(a: App<V>, n: string)
    ensures ChannelCount(CreateChannel(a, n).channels, n) == ChannelCount(a.channels, n) + 1
  {
    ChannelCountSnoc(a.channels, Channel(n), n);
  }

  /**
   Broadcast scoping: on an existing channel the k-th delivery goes to the user at
   the k-th position whose channel is `c`, so exactly its occupants receive the
   message, each once, in list order.
   */
  lemma ChannelMessageOccupants<V>(a: App<V>, c: string, m: string)
    requires ChannelExists(a, c)
    ensures |ChannelMessage(a, c, m)| == |Positions(a.users, InChannel(c))|
    ensures forall k :: 0 <= k < |ChannelMessage(a, c, m)| ==>
              ChannelMessage(a, c, m)[k] == Deliver(a.users[Positions(a.users, InChannel(c))[k]], m)
  {
    FanoutIsPositions(a.users, InChannel(c), m);
  }

  /** A channel message reaches a user exactly when that user is in the channel. */
  lemma ChannelMessageReaches<V>(a: App<V>, c: string, m: string, i: nat)
    requires ChannelExists(a, c) && i < |a.users|
    ensures a.users[i].channel == c ==> Deliver(a.users[i], m) in ChannelMessage(a, c, m)
    ensures forall d :: d in ChannelMessage(a, c, m) ==>
              exists j :: 0 <= j < |a.users| && a.users[j].channel == c && d == Deliver(a.users[j], m)
  {
    if a.users[i].channel == c {
      FanoutReachesSelected(a.users, InChannel(c), m, i);
    }
    forall d | d in ChannelMessage(a, c, m)
      ensures exists j :: 0 <= j < |a.users| && a.users[j].channel == c && d == Deliver(a.users[j], m)
    {
      FanoutOnlySelected(a.users, InChannel(c), m, d);
    }
  }

  /**
   A new user is greeted first and hears its own arrival last; in between, each
   earlier occupant of `#general` hears it once.
   */
  lemma CreateUserAnnounced<V>(a: App<V>, name: string, ws: Socket)
    requires Valid(a)
    ensures Valid(CreateUser(a, name, ws).app)
    ensures |CreateUser(a, name, ws).trace| == |Positions(a.users, InChannel(General))| + 2
    ensures CreateUser(a, name, ws).trace
            == [Delivery(ws, name, WelcomeText)]
               + Fanout(a.users, InChannel(General), JoinedGeneralText(name))
               + [Delivery(ws, name, JoinedGeneralText(name))]
    ensures CreateUser(a, name, ws).trace[|CreateUser(a, name, ws).trace| - 1]
            == Delivery(ws, name, JoinedGeneralText(name))
  {
    var r := CreateUser(a, name, ws);
    var text := JoinedGeneralText(name);
    assert r.app.users == a.users + [User(name, ws, General)];
    FanoutSnoc(a.users, User(name, ws, General), InChannel(General), text);
    FanoutIsPositions(a.users, InChannel(General), text);
  }

  /**
   The user `createUser` returns is in `#general` under its name, and `getUser`
   of that name finds it or an earlier user of the same name.
   */
  lemma CreateUserFindable<V>(a: App<V>, name: string, ws: Socket)
    ensures CreateUser(a, name, ws).app.users[CreateUser(a, name, ws).user].channel == General
    ensures GetUser(CreateUser(a, name, ws).app, name).Some?
    ensures GetUser(CreateUser(a, name, ws).app, name).value <= CreateUser(a, name, ws).user
  {
    var r := CreateUser(a, name, ws);
    GetUserFinds(r.app, name, r.user);
  }

  /**
   `joinChannel` never creates the channel: joining an existing channel makes the
   mover hear its own announcement, and joining a missing one delivers nothing.
   */
  lemma JoinChannelAnnounces<V>(a: App<V>, i: nat, c: string)
    requires i < |a.users|
    ensures ChannelExists(JoinChannel(a, i, c).app, c) == ChannelExists(a, c)
    ensures ChannelExists(a, c) ==>
              Delivery(a.users[i].socket, a.users[i].name, JoinedText(a.users[i].name, c)) in JoinChannel(a, i, c).trace
    ensures !ChannelExists(a, c) ==> JoinChannel(a, i, c).trace == []
  {
    var r := JoinChannel(a, i, c);
    if ChannelExists(a, c) {
      ChannelMessageReaches(r.app, c, JoinedText(a.users[i].name, c), i);
    }
  }

  /** `getUser` finds a user named `n` exactly when one is in the list. */
  lemma GetUserFinds<V>(a: App<V>, n: string, j: nat)
    requires j < |a.users| && a.users[j].name == n
    ensures GetUser(a, n).Some? && GetUser(a, n).value <= j
  {
  }

  /**
   `deleteUser(n)` keeps the other users in their original order: the k-th
   survivor is the k-th user whose name is not `n`.
   */
  lemma DeleteUserKeepsOrder<V>(a: App<V>, n: string)
    ensures |DeleteUser(a, n).users| == |Positions(a.users, NotNamed(n))|
    ensures forall k :: 0 <= k < |DeleteUser(a, n).users| ==>
              DeleteUser(a, n).users[k] == a.users[Positions(a.users, NotNamed(n))[k]]
  {
    FilterIsPositions(a.users, NotNamed(n));
  }

  /**
   After `deleteUser(n)` nobody named `n` is found or messaged, and a second
   `deleteUser(n)` changes nothing.
   */
  lemma DeleteUserThenAbsent<V>(a: App<V>, n: string, m: string)
    ensures GetUser(DeleteUser(a, n), n) == None
    ensures UserMessage(DeleteUser(a, n), n, m) == []
    ensures DeleteUser(DeleteUser(a, n), n).users == DeleteUser(a, n).users
  {
    var r := DeleteUser(a, n);
    FilterAllSelected(r.users, NotNamed(n));
    FanoutNoneSelected(r.users, Named(n), m);
  }

  /** Deleting a name nobody has leaves the user list as it was. */
  lemma DeleteAbsentUser<V>(a: App<V>, n: string)
    requires GetUser(a, n) == None
    ensures DeleteUser(a, n).users == a.users
  {
    FilterAllSelected(a.users, NotNamed(n));
  }

  /**
   `userMessage(n, m)` delivers `m` to exactly the users named `n`, each once, in
   list order, and delivers nothing when `getUser(n)` is `null`.
   */
  lemma UserMessageNamed<V>(a: App<V>, n: string, m: string)
    ensures |UserMessage(a, n, m)| == |Positions(a.users, Named(n))|
    ensures forall k :: 0 <= k < |UserMessage(a, n, m)| ==>
              UserMessage(a, n, m)[k] == Deliver(a.users[Positions(a.users, Named(n))[k]], m)
              && UserMessage(a, n, m)[k].recipient == n
    ensures UserMessage(a, n, m) == [] <==> GetUser(a, n) == None
  {
    FanoutIsPositions(a.users, Named(n), m);
    var idx := Positions(a.users, Named(n));
    if GetUser(a, n).Some? {
      var j := GetUser(a, n).value;
      assert j in idx;
    } else {
      FanoutNoneSelected(a.users, Named(n), m);
    }
  }

  /**
   Renaming does not check for collisions: afterwards `getUser(newName)` finds
   the renamed user or an earlier user of that name, and a user who already had
   `newName` keeps it, so both share it.
   */
  lemma ChangeNameNoCollisionCheck<V>(a: App<V>, i: nat, newName: string, j: nat)
    requires i < |a.users| && j < |a.users|
    ensures GetUser(ChangeName(a, i, newName).app, newName).Some?
    ensures GetUser(ChangeName(a, i, newName).app, newName).value <= i
    ensures a.users[j].name == newName ==>
              ChangeName(a, i, newName).app.users[j].name == ChangeName(a, i, newName).app.users[i].name
  {
  }

  /**
   Registration order is priority: a command registered later never overrides an
   answer the table already gives; it answers only when every earlier entry does not.
   */
  lemma RegisterCommandPriority<V>(a: App<V>, t: string, f: (seq<string>, User) -> Outcome<V>, msg: string, u: User)
    ensures Handle(a, msg, u).Some? ==> Handle(RegisterCommand(a, t, f), msg, u) == Handle(a, msg, u)
    ensures Handle(a, msg, u).None? ==>
              Handle(RegisterCommand(a, t, f), msg, u)
              == (if Answers(Command(t, f), msg, u) then Some(f(Tokens(msg), u).value) else None)
  {
    DispatchAppend(a.commands, Command(t, f), msg, u);
  }

  /** Every operation keeps `#general` in existence. */
  lemma OperationsPreserveValid<V>(a: App<V>, n: string, ws: Socket, i: nat, c: string,
                                   t: string, f: (seq<string>, User) -> Outcome<V>)
    requires Valid(a)
    ensures Valid(CreateChannel(a, n))
    ensures Valid(CreateUser(a, n, ws).app)
    ensures Valid(RegisterCommand(a, t, f))
    ensures Valid(DeleteUser(a, n))
    ensures i < |a.users| ==> Valid(JoinChannel(a, i, c).app) && Valid(ChangeName(a, i, n).app)
  {
    CreateChannelExists(a, n, General);
  }

  /**
   End to end: alice and bob connect, `#dev` is created and bob joins it; the
   announcement goes to bob alone, while alice stays in `#general`.
   */
  lemma ConnectAndJoinScenario<V>()
    ensures var a1 := CreateUser(NewApp<V>(), "alice", 1);
            var a2 := CreateUser(a1.app, "bob", 2);
            var a3 := CreateChannel(a2.app, "#dev");
            var j := JoinChannel(a3, a2.user, "#dev");
            && a1.trace == [Delivery(1, "alice", WelcomeText), Delivery(1, "alice", JoinedGeneralText("alice"))]
            && j.trace == [Delivery(2, "bob", JoinedText("bob", "#dev"))]
            && j.app.users == [User("alice", 1, General), User("bob", 2, "#dev")]
  {
    var alice := User("alice", 1, General);
    var bob := User("bob", 2, General);
    var a1 := CreateUser(NewApp<V>(), "alice", 1);
    assert a1.app.users == [alice];
    assert ChannelExists(a1.app, General);
    assert a1.trace[1..] == [Deliver(alice, JoinedGeneralText("alice"))];
    var a2 := CreateUser(a1.app, "bob", 2);
    assert a2.app.users == [alice, bob] && a2.user == 1;
    var a3 := CreateChannel(a2.app, "#dev");
    CreateChannelExists(a2.app, "#dev", "#dev");
    var j := JoinChannel(a3, a2.user, "#dev");
    assert j.app.users == [alice, User("bob", 2, "#dev")];
    var text := JoinedText("bob", "#dev");
    assert j.trace == Fanout(j.app.users, InChannel("#dev"), text);
    assert j.app.users[1..] == [User("bob", 2, "#dev")];
    assert Fanout(j.app.users[1..], InChannel("#dev"), text) == [Delivery(2, "bob", text)];
  }
}
