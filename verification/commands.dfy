/**
 The command table of server/app.js: an ordered list of (trigger, handler) pairs
 and the first-match dispatcher `handle`. A handler is modelled as a pure function
 of the message tokens and the calling user that either returns a value or throws.
 */
module Commands {
  import opened Wrappers
  import opened Strings
  import opened Users

  /** What a handler call does: return a value or throw. */
  datatype Outcome<+V> = Ok(value: V) | Throw

  /** One `{trigger, func}` entry of the command table. */
  datatype Command<V> = Command(trigger: string, handler: (seq<string>, User) -> Outcome<V>)

  /** The tokens a handler receives: `message.split(' ')`. */
  function Tokens(msg: string): (tokens: seq<string>)
    ensures Join(tokens, ' ') == msg
    ensures forall k :: 0 <= k < |tokens| ==> ' ' !in tokens[k]
  {
    JoinSplit(msg, ' ');
    Split(msg, ' ')
  }

  /** `message.startsWith(command.trigger)`. */
  predicate Matches<V>(c: Command<V>, msg: string)
    ensures Matches(c, msg) <==>
              |c.trigger| <= |msg| && forall i :: 0 <= i < |c.trigger| ==> msg[i] == c.trigger[i]
  {
    StartsWith(msg, c.trigger)
  }

  /** The entry matches `msg` and its handler returns rather than throws. */
  predicate Answers<V>(c: Command<V>, msg: string, u: User) {
    Matches(c, msg) && c.handler(Tokens(msg), u).Ok?
  }

  /**
   Scans the table in order, calling each matching handler until one returns;
   a throwing handler is skipped. `None` is the `undefined` returned by falling
   out of the loop: nothing matched or every matching handler threw. A handler
   that returns `undefined` itself has answered, and its result is `Some` of it.
   */
  function Dispatch<V>(cmds: seq<Command<V>>, msg: string, u: User): (r: Option<V>)
    ensures r.None? <==> forall k :: 0 <= k < |cmds| ==> !Answers(cmds[k], msg, u)
    ensures r.Some? ==> exists k :: 0 <= k < |cmds| && FirstAnswer(cmds, msg, u, k)
                                   && r.value == cmds[k].handler(Tokens(msg), u).value
    decreases |cmds|
  {
    if |cmds| == 0 then None
    else if Matches(cmds[0], msg) && cmds[0].handler(Tokens(msg), u).Ok? then
      assert FirstAnswer(cmds, msg, u, 0);
      Some(cmds[0].handler(Tokens(msg), u).value)
    else
      var r := Dispatch(cmds[1..], msg, u);
      assert r.Some? ==> exists k :: 0 <= k < |cmds| && FirstAnswer(cmds, msg, u, k)
                                    && r.value == cmds[k].handler(Tokens(msg), u).value by {
        if r.Some? {
          var k :| 0 <= k < |cmds[1..]| && FirstAnswer(cmds[1..], msg, u, k)
                   && r.value == cmds[1..][k].handler(Tokens(msg), u).value;
          assert FirstAnswer(cmds, msg, u, k + 1);
        }
      }
      r
  }

  /** Entry `k` answers and every earlier entry does not (it does not match, or it throws). */
  predicate FirstAnswer<V>(cmds: seq<Command<V>>, msg: string, u: User, k: nat) {
    k < |cmds| && Answers(cmds[k], msg, u)
    && forall j :: 0 <= j < k ==> !Answers(cmds[j], msg, u)
  }

  /** At most one entry is the first to answer, so dispatch is deterministic. */
  lemma FirstAnswerUnique<V>(cmds: seq<Command<V>>, msg: string, u: User, j: nat, k: nat)
    requires FirstAnswer(cmds, msg, u, j) && FirstAnswer(cmds, msg, u, k)
    ensures j == k
  {
  }

  /** Dispatch returns the value of the first answering entry. */
  lemma DispatchFirstAnswer<V>(cmds: seq<Command<V>>, msg: string, u: User, k: nat)
    requires FirstAnswer(cmds, msg, u, k)
    ensures Dispatch(cmds, msg, u) == Some(cmds[k].handler(Tokens(msg), u).value)
  {
  }

  /**
   Appending an entry never overrides an earlier one: if the table already answers,
   the answer stays; otherwise the new entry answers if it matches and returns.
   */
  lemma {:induction false} DispatchAppend<V>(cmds: seq<Command<V>>, c: Command<V>, msg: string, u: User)
    ensures Dispatch(cmds, msg, u).Some? ==> Dispatch(cmds + [c], msg, u) == Dispatch(cmds, msg, u)
    ensures Dispatch(cmds, msg, u).None? ==>
              Dispatch(cmds + [c], msg, u) == (if Answers(c, msg, u) then Some(c.handler(Tokens(msg), u).value) else None)
    decreases |cmds|
  {
    if |cmds| == 0 {
      assert cmds + [c] == [c];
      assert [c][1..] == [];
    } else {
      assert (cmds + [c])[0] == cmds[0];
      assert (cmds + [c])[1..] == cmds[1..] + [c];
      DispatchAppend(cmds[1..], c, msg, u);
    }
  }

  /** The empty trigger matches every message, the empty message included. */
  lemma EmptyTriggerMatchesAll<V>(f: (seq<string>, User) -> Outcome<V>, msg: string)
    ensures Matches(Command("", f), msg)
  {
  }

  /**
   Prefix priority: with triggers registered in the order `/a`, `/ab`, `""`, the
   message `/ab hello` is answered by the `/a` handler when it returns.
   */
  lemma PrefixPriority<V>(a: (seq<string>, User) -> Outcome<V>, ab: (seq<string>, User) -> Outcome<V>,
                          fallback: (seq<string>, User) -> Outcome<V>, u: User)
    requires a(Tokens("/ab hello"), u).Ok?
    ensures Dispatch([Command("/a", a), Command("/ab", ab), Command("", fallback)], "/ab hello", u)
            == Some(a(Tokens("/ab hello"), u).value)
  {
  }

  /** The tokens a handler receives join back, with single spaces, into the message. */
  lemma TokensRejoin(msg: string)
    ensures Join(Tokens(msg), ' ') == msg
    ensures forall k :: 0 <= k < |Tokens(msg)| ==> ' ' !in Tokens(msg)[k]
  {
    JoinSplit(msg, ' ');
  }
}
