/**
 The `App` class of server/app.js as a value: the ordered user list, the ordered
 channel list (which starts with `#general`) and the command table. Every operation
 returns the new state together with the `socket.send` calls it makes, in order.

 A user is addressed by its position in the user list, which stands for the
 JavaScript object reference the source passes around.
 */
module ChatApp {
  import opened Wrappers
  import opened Users
  import opened Commands

  /** The default channel: every new user is put in it. */
  const General: string := "#general"

  /** The greeting the `User` constructor sends. */
  const WelcomeText: string :=
    "Server: Welcome to the Beachat server! Type '/help' for instructions and a list of commands you can use."

  /** The announcement `createUser` broadcasts to `#general`. */
  function JoinedGeneralText(name: string): (text: string) {
    "Server: " + name + " joined channel #general."
  }

  /** The announcement `joinChannel` broadcasts to the joined channel. */
  function JoinedText(name: string, channel: string): (text: string) {
    "Server: " + name + " joined channel '" + channel + "'."
  }

  /** The confirmation `changeName` sends to the renamed user. */
  function RenamedText(name: string): (text: string) {
    "Server: Name changed to " + name
  }

  /** A channel; its `history` array is never written by the engine and is not kept. */
  datatype Channel = Channel(name: string)

  datatype App<V> = App(users: seq<User>, channels: seq<Channel>, commands: seq<Command<V>>)

  /** The new state after an operation and the deliveries it made, in order. */
  datatype Effect<V> = Effect(app: App<V>, trace: seq<Delivery>)

  /** `createUser`'s result: the effect and the position of the new user. */
  datatype Created<V> = Created(app: App<V>, trace: seq<Delivery>, user: nat)

  /** The state invariant: the default channel exists. */
  predicate Valid<V>(a: App<V>) {
    ChannelExists(a, General)
  }

  /** `new App()`: no users, the one channel `#general`, no commands. */
  function NewApp<V>(): (a: App<V>)
    ensures Valid(a)
    ensures |a.users| == 0 && |a.commands| == 0 && |a.channels| == 1
  {
    App([], [Channel(General)], [])
  }

  /** True exactly when some channel in the list has the name `n`. */
  function HasChannel(cs: seq<Channel>, n: string): (b: bool)
    ensures b <==> exists i :: 0 <= i < |cs| && cs[i].name == n
    decreases |cs|
  {
    if |cs| == 0 then false
    else if cs[0].name == n then true
    else
      var b := HasChannel(cs[1..], n);
      assert b ==> exists i :: 0 <= i < |cs| && cs[i].name == n by {
        if b {
          var i :| 0 <= i < |cs[1..]| && cs[1..][i].name == n;
          assert cs[i + 1].name == n;
        }
      }
      b
  }

  /** `channelExists(name)`. */
  predicate ChannelExists<V>(a: App<V>, n: string)
    ensures ChannelExists(a, n) <==> exists i :: 0 <= i < |a.channels| && a.channels[i].name == n
  {
    HasChannel(a.channels, n)
  }

  /** `createChannel(name)`: appends a channel, even when one of that name exists already. */
  function CreateChannel<V>(a: App<V>, n: string): (r: App<V>)
    ensures |r.channels| == |a.channels| + 1
    ensures r.channels[..|a.channels|] == a.channels && r.channels[|a.channels|].name == n
    ensures r.users == a.users && r.commands == a.commands
  {
    a.(channels := a.channels + [Channel(n)])
  }

  /** `new User(name, ws)`: the record, put in `#general`, and the greeting it sends. */
  function NewUser(name: string, ws: Socket): (r: (User, Delivery))
    ensures r.0.name == name && r.0.socket == ws && r.0.channel == General
    ensures r.1 == Deliver(r.0, WelcomeText)
  {
    var u := User(name, ws, General);
    (u, Deliver(u, WelcomeText))
  }

  /**
   `createUser(name, ws)`: greets the new user, appends it, then announces it to
   everyone in `#general`, the new user included.
   */
  function CreateUser<V>(a: App<V>, name: string, ws: Socket): (r: Created<V>)
    ensures r.user == |a.users| && |r.app.users| == |a.users| + 1
    ensures r.app.users[..|a.users|] == a.users
    ensures r.app.users[r.user] == User(name, ws, General)
    ensures r.app.channels == a.channels && r.app.commands == a.commands
    ensures |r.trace| >= 1 && r.trace[0] == Delivery(ws, name, WelcomeText)
    ensures r.trace[1..] == ChannelMessage(r.app, General, JoinedGeneralText(name))
  {
    var (u, welcome) := NewUser(name, ws);
    var a' := a.(users := a.users + [u]);
    assert a'.users[..|a.users|] == a.users;
    Created(a', [welcome] + ChannelMessage(a', General, JoinedGeneralText(u.name)), |a.users|)
  }

  /** `command(trigger, func)`: appends an entry to the end of the table. */
  function RegisterCommand<V>(a: App<V>, trigger: string, f: (seq<string>, User) -> Outcome<V>): (r: App<V>)
    ensures |r.commands| == |a.commands| + 1
    ensures r.commands[..|a.commands|] == a.commands && r.commands[|a.commands|] == Command(trigger, f)
    ensures r.users == a.users && r.channels == a.channels
  {
    a.(commands := a.commands + [Command(trigger, f)])
  }

  /**
   `channelMessage(channel, message)`: sends to every user whose channel is
   `channel`, in list order, and to nobody when no such channel exists.
   */
  function ChannelMessage<V>(a: App<V>, c: string, m: string): (t: seq<Delivery>)
    ensures !ChannelExists(a, c) ==> t == []
    ensures forall k :: 0 <= k < |t| ==> t[k].text == m
  {
    if ChannelExists(a, c) then Fanout(a.users, InChannel(c), m) else []
  }

  /** `getUser(name)`: the position of the first user named `n`, `None` for `null`. */
  function GetUser<V>(a: App<V>, n: string): (r: Option<nat>)
    ensures r.Some? ==> r.value < |a.users| && a.users[r.value].name == n
    ensures r.Some? ==> forall j :: 0 <= j < r.value ==> a.users[j].name != n
    ensures r.None? <==> forall j :: 0 <= j < |a.users| ==> a.users[j].name != n
  {
    FirstNamed(a.users, n)
  }

  /**
   `joinChannel(user, channel)`: moves user `i` to `c` (without creating `c`) and
   announces it to the occupants of `c`, who now include user `i`.
   */
  function JoinChannel<V>(a: App<V>, i: nat, c: string): (r: Effect<V>)
    requires i < |a.users|
    ensures |r.app.users| == |a.users|
    ensures r.app.users[i] == a.users[i].(channel := c)
    ensures forall j :: 0 <= j < |a.users| && j != i ==> r.app.users[j] == a.users[j]
    ensures r.app.channels == a.channels && r.app.commands == a.commands
    ensures r.trace == ChannelMessage(r.app, c, JoinedText(a.users[i].name, c))
  {
    var u := a.users[i].(channel := c);
    var a' := a.(users := a.users[i := u]);
    Effect(a', ChannelMessage(a', u.channel, JoinedText(u.name, u.channel)))
  }

  /** `userMessage(name, message)`: sends to every user named `n`, in list order. */
  function UserMessage<V>(a: App<V>, n: string, m: string): (t: seq<Delivery>)
    ensures forall k :: 0 <= k < |t| ==> t[k].text == m
  {
    Fanout(a.users, Named(n), m)
  }

  /** `deleteUser(name)`: removes every user named `n`, keeping the others in order. */
  function DeleteUser<V>(a: App<V>, n: string): (r: App<V>)
    ensures forall k :: 0 <= k < |r.users| ==> r.users[k].name != n && r.users[k] in a.users
    ensures forall j :: 0 <= j < |a.users| && a.users[j].name != n ==> a.users[j] in r.users
    ensures r.channels == a.channels && r.commands == a.commands
  {
    FilterMembers(a.users, NotNamed(n));
    a.(users := Filter(a.users, NotNamed(n)))
  }

  /**
   `user.changeName(newName)`: renames user `i` in place, with no check against
   the other users' names, and confirms to that user under the new name.
   */
  function ChangeName<V>(a: App<V>, i: nat, newName: string): (r: Effect<V>)
    requires i < |a.users|
    ensures |r.app.users| == |a.users|
    ensures r.app.users[i] == a.users[i].(name := newName)
    ensures forall j :: 0 <= j < |a.users| && j != i ==> r.app.users[j] == a.users[j]
    ensures r.app.channels == a.channels && r.app.commands == a.commands
    ensures r.trace == [Delivery(a.users[i].socket, newName, RenamedText(newName))]
  {
    var u := a.users[i].(name := newName);
    Effect(a.(users := a.users[i := u]), [Deliver(u, RenamedText(newName))])
  }

  /**
   `handle(message, user)`: the first matching command whose handler returns
   decides the result; see `Dispatch`. `None` is the `undefined` reached by falling
   out of the loop; a handler that itself returns `undefined` gives `Some` of it. At server/app.js:100 the loop body reads an
   undeclared `comand` before its `try`, which would throw a ReferenceError on the
   first iteration; this is the loop the code evidently intends, without that line.
   */
  function Handle<V>(a: App<V>, msg: string, u: User): (r: Option<V>)
    ensures r.None? <==> forall k :: 0 <= k < |a.commands| ==> !Answers(a.commands[k], msg, u)
    ensures r.Some? ==> exists k :: 0 <= k < |a.commands| && FirstAnswer(a.commands, msg, u, k)
                                   && r.value == a.commands[k].handler(Tokens(msg), u).value
  {
    Dispatch(a.commands, msg, u)
  }
}
