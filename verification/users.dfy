/**
 The `User` record of server/app.js and the three scans the engine runs over the
 ordered user list: sending to every selected user (`users.map(...)` with an `if`),
 keeping the selected users (`users.filter(...)`) and finding the first user with a
 name (`for ... of` with an early `return`).
 */
module Users {
  import opened Wrappers

  /** An opaque handle for a client's WebSocket connection. */
  type Socket = nat

  /** A connected user: display name, connection and the name of its current channel. */
  datatype User = User(name: string, socket: Socket, channel: string)

  /**
   One `socket.send(text)` call: the connection written to, the display name its
   user had at that moment, and the text.
   */
  datatype Delivery = Delivery(socket: Socket, recipient: string, text: string)

  /** `user.send(text)`. */
  function Deliver(u: User, text: string): (d: Delivery)
    ensures d.socket == u.socket && d.recipient == u.name && d.text == text
  {
    Delivery(u.socket, u.name, text)
  }

  /** The per-user tests the engine's scans use. */
  datatype Selector =
    | InChannel(channel: string)   // user.channel == channel
    | Named(name: string)          // user.name == name
    | NotNamed(name: string)       // user.name != name

  predicate Selects(s: Selector, u: User) {
    match s
    case InChannel(c) => u.channel == c
    case Named(n) => u.name == n
    case NotNamed(n) => u.name != n
  }

  /** Sends `text` to every selected user, walking the list from the front. */
  function Fanout(us: seq<User>, s: Selector, text: string): (t: seq<Delivery>)
    ensures |t| <= |us|
    ensures forall k :: 0 <= k < |t| ==> t[k].text == text
    decreases |us|
  {
    if |us| == 0 then []
    else (if Selects(s, us[0]) then [Deliver(us[0], text)] else []) + Fanout(us[1..], s, text)
  }

  /** Keeps the selected users, walking the list from the front. */
  function Filter(us: seq<User>, s: Selector): (r: seq<User>)
    ensures |r| <= |us|
    ensures forall k :: 0 <= k < |r| ==> Selects(s, r[k])
    decreases |us|
  {
    if |us| == 0 then []
    else (if Selects(s, us[0]) then [us[0]] else []) + Filter(us[1..], s)
  }

  /** The position of the first user named `n`, or `None` when nobody has that name. */
  function FirstNamed(us: seq<User>, n: string): (r: Option<nat>)
    ensures r.Some? ==> r.value < |us| && us[r.value].name == n
    ensures r.Some? ==> forall j :: 0 <= j < r.value ==> us[j].name != n
    ensures r.None? <==> forall j :: 0 <= j < |us| ==> us[j].name != n
    decreases |us|
  {
    if |us| == 0 then None
    else if us[0].name == n then Some(0)
    else match FirstNamed(us[1..], n)
      case None => None
      case Some(i) => Some(i + 1)
  }

  /** Strictly increasing positions: each chosen at most once, in list order. */
  predicate Increasing(idx: seq<nat>) {
    forall j, k :: 0 <= j < k < |idx| ==> idx[j] < idx[k]
  }

  /**
   Reference definition of a selection, independent of the scans above: the
   positions of exactly the selected users, in increasing order (built from the back).
   */
  function Positions(us: seq<User>, s: Selector): (idx: seq<nat>)
    ensures Increasing(idx)
    ensures forall k :: 0 <= k < |idx| ==> idx[k] < |us| && Selects(s, us[idx[k]])
    ensures forall i :: 0 <= i < |us| && Selects(s, us[i]) ==> i in idx
    decreases |us|
  {
    if |us| == 0 then []
    else
      var last := |us| - 1;
      Positions(us[..last], s) + (if Selects(s, us[last]) then [last] else [])
  }

  lemma {:induction false} FilterSnoc(us: seq<User>, u: User, s: Selector)
    ensures Filter(us + [u], s) == Filter(us, s) + (if Selects(s, u) then [u] else [])
    decreases |us|
  {
    if |us| == 0 {
      assert us + [u] == [u];
      assert [u][1..] == [];
    } else {
      assert (us + [u])[0] == us[0];
      assert (us + [u])[1..] == us[1..] + [u];
      FilterSnoc(us[1..], u, s);
    }
  }

  lemma {:induction false} FanoutSnoc(us: seq<User>, u: User, s: Selector, text: string)
    ensures Fanout(us + [u], s, text) == Fanout(us, s, text) + (if Selects(s, u) then [Deliver(u, text)] else [])
    decreases |us|
  {
    if |us| == 0 {
      assert us + [u] == [u];
      assert [u][1..] == [];
    } else {
      assert (us + [u])[0] == us[0];
      assert (us + [u])[1..] == us[1..] + [u];
      FanoutSnoc(us[1..], u, s, text);
    }
  }

  /** A fan-out to a list in which nobody is selected delivers nothing. */
  lemma {:induction false} FanoutNoneSelected(us: seq<User>, s: Selector, text: string)
    requires forall i :: 0 <= i < |us| ==> !Selects(s, us[i])
    ensures Fanout(us, s, text) == []
    decreases |us|
  {
    if |us| > 0 {
      assert !Selects(s, us[0]);
      FanoutNoneSelected(us[1..], s, text);
    }
  }

  /** Filtering a list whose users are all selected keeps all of them. */
  lemma {:induction false} FilterAllSelected(us: seq<User>, s: Selector)
    requires forall i :: 0 <= i < |us| ==> Selects(s, us[i])
    ensures Filter(us, s) == us
    decreases |us|
  {
    if |us| > 0 {
      FilterAllSelected(us[1..], s);
      assert [us[0]] + us[1..] == us;
    }
  }

  /**
   Filtering keeps exactly the selected users, in their original order: the k-th
   survivor is the user at the k-th selected position.
   */
  lemma {:induction false} FilterIsPositions(us: seq<User>, s: Selector)
    ensures |Filter(us, s)| == |Positions(us, s)|
    ensures forall k :: 0 <= k < |Filter(us, s)| ==> Filter(us, s)[k] == us[Positions(us, s)[k]]
    decreases |us|
  {
    if |us| > 0 {
      var last := |us| - 1;
      var init := us[..last];
      assert us == init + [us[last]];
      FilterSnoc(init, us[last], s);
      FilterIsPositions(init, s);
      var idx := Positions(us, s);
      var f := Filter(us, s);
      forall k | 0 <= k < |f|
        ensures f[k] == us[idx[k]]
      {
        if k < |Filter(init, s)| {
          assert f[k] == Filter(init, s)[k];
          assert idx[k] == Positions(init, s)[k];
          assert init[Positions(init, s)[k]] == us[idx[k]];
        }
      }
    }
  }

  /** The filter keeps only users of the list, and every selected one of them. */
  lemma FilterMembers(us: seq<User>, s: Selector)
    ensures forall k :: 0 <= k < |Filter(us, s)| ==> Filter(us, s)[k] in us
    ensures forall i :: 0 <= i < |us| && Selects(s, us[i]) ==> us[i] in Filter(us, s)
  {
    FilterIsPositions(us, s);
    var f := Filter(us, s);
    var idx := Positions(us, s);
    forall i | 0 <= i < |us| && Selects(s, us[i])
      ensures us[i] in f
    {
      var k :| 0 <= k < |idx| && idx[k] == i;
      assert f[k] == us[i];
    }
  }

  /** The fan-out sends, in order, one delivery to each user the filter keeps. */
  lemma {:induction false} FanoutIsFilter(us: seq<User>, s: Selector, text: string)
    ensures |Fanout(us, s, text)| == |Filter(us, s)|
    ensures forall k :: 0 <= k < |Filter(us, s)| ==> Fanout(us, s, text)[k] == Deliver(Filter(us, s)[k], text)
    decreases |us|
  {
    if |us| > 0 {
      var rest := Fanout(us[1..], s, text);
      var kept := Filter(us[1..], s);
      FanoutIsFilter(us[1..], s, text);
      if Selects(s, us[0]) {
        assert Fanout(us, s, text) == [Deliver(us[0], text)] + rest;
        assert Filter(us, s) == [us[0]] + kept;
        forall k | 1 <= k < |Filter(us, s)|
          ensures Fanout(us, s, text)[k] == Deliver(Filter(us, s)[k], text)
        {
          assert Fanout(us, s, text)[k] == rest[k - 1];
          assert Filter(us, s)[k] == kept[k - 1];
        }
      } else {
        assert Fanout(us, s, text) == rest;
        assert Filter(us, s) == kept;
      }
    }
  }

  /**
   The fan-out delivers `text` to exactly the selected users, each once, in list
   order: the k-th delivery goes to the user at the k-th selected position.
   */
  lemma FanoutIsPositions(us: seq<User>, s: Selector, text: string)
    ensures |Fanout(us, s, text)| == |Positions(us, s)|
    ensures forall k :: 0 <= k < |Positions(us, s)| ==> Fanout(us, s, text)[k] == Deliver(us[Positions(us, s)[k]], text)
  {
    FanoutIsFilter(us, s, text);
    FilterIsPositions(us, s);
  }

  /** Every delivery of a fan-out goes to a selected user of the list. */
  lemma FanoutOnlySelected(us: seq<User>, s: Selector, text: string, d: Delivery)
    requires d in Fanout(us, s, text)
    ensures exists i :: 0 <= i < |us| && Selects(s, us[i]) && d == Deliver(us[i], text)
  {
  }

  /** Every selected user of the list receives the fan-out. */
  lemma FanoutReachesSelected(us: seq<User>, s: Selector, text: string, i: nat)
    requires i < |us| && Selects(s, us[i])
    ensures Deliver(us[i], text) in Fanout(us, s, text)
  {
    FanoutIsPositions(us, s, text);
    var idx := Positions(us, s);
    var k :| 0 <= k < |idx| && idx[k] == i;
    assert Fanout(us, s, text)[k] == Deliver(us[i], text);
  }
}
