/**
 The two string primitives the chat engine relies on, with JavaScript's meaning:
 `s.startsWith(p)` and `s.split(sep)` for a one-character separator, plus
 `tokens.join(sep)` as the inverse of the split.
 */
module Strings {

  /** `s.startsWith(p)`: `p` is a prefix of `s`; the empty string is a prefix of everything. */
  predicate StartsWith(s: string, p: string) {
    |p| <= |s| && s[..|p|] == p
  }

  /** Number of occurrences of `c` in `s`. */
  function Occurrences(s: string, c: char): (count: nat)
    ensures count <= |s|
    decreases |s|
  {
    if |s| == 0 then 0 else (if s[0] == c then 1 else 0) + Occurrences(s[1..], c)
  }

  /**
   `s.split(sep)`: the maximal runs of `s` between separators, in order. Like
   JavaScript it never yields an empty list (`"".split(" ")` is `[""]`) and keeps
   the empty tokens between adjacent separators.
   */
  function Split(s: string, sep: char): (tokens: seq<string>)
    ensures |tokens| == Occurrences(s, sep) + 1
    ensures forall k :: 0 <= k < |tokens| ==> sep !in tokens[k]
    decreases |s|
  {
    if |s| == 0 then [""]
    else
      var rest := Split(s[1..], sep);
      if s[0] == sep then [""] + rest
      else [[s[0]] + rest[0]] + rest[1..]
  }

  /** `tokens.join(sep)`: the tokens with one separator between neighbours. */
  function Join(tokens: seq<string>, sep: char): (s: string)
    decreases |tokens|
  {
    if |tokens| == 0 then ""
    else if |tokens| == 1 then tokens[0]
    else tokens[0] + [sep] + Join(tokens[1..], sep)
  }

  /** Joining the tokens of a split gives back the original string. */
  lemma {:induction false} JoinSplit(s: string, sep: char)
    ensures Join(Split(s, sep), sep) == s
    decreases |s|
  {
    if |s| > 0 {
      var rest := Split(s[1..], sep);
      JoinSplit(s[1..], sep);
      if s[0] == sep {
        assert Split(s, sep) == [""] + rest;
        assert ([""] + rest)[1..] == rest;
        assert s == [sep] + s[1..];
      } else {
        var tokens := Split(s, sep);
        assert tokens == [[s[0]] + rest[0]] + rest[1..];
        if |rest| == 1 {
          assert s == [s[0]] + s[1..];
        } else {
          assert tokens[1..] == rest[1..];
          assert Join(rest, sep) == rest[0] + [sep] + Join(rest[1..], sep);
          assert s == [s[0]] + s[1..];
        }
      }
    }
  }

  /** Splitting a string that starts with a separator-free token `t`. */
  lemma {:induction false} SplitAfterToken(t: string, u: string, sep: char)
    requires sep !in t
    ensures Split(t + u, sep) == [t + Split(u, sep)[0]] + Split(u, sep)[1..]
    decreases |t|
  {
    if |t| > 0 {
      assert (t + u)[0] == t[0];
      assert (t + u)[1..] == t[1..] + u;
      SplitAfterToken(t[1..], u, sep);
      assert [t[0]] + (t[1..] + Split(u, sep)[0]) == t + Split(u, sep)[0];
    } else {
      var r := Split(u, sep);
      assert t + u == u;
      assert t + r[0] == r[0];
      assert [r[0]] + r[1..] == r;
    }
  }

  /**
   Splitting a join gives back the tokens, provided there is at least one token and
   none of them contains the separator (the join/split round trip in the other direction).
   */
  lemma {:induction false} SplitJoin(tokens: seq<string>, sep: char)
    requires |tokens| >= 1
    requires forall k :: 0 <= k < |tokens| ==> sep !in tokens[k]
    ensures Split(Join(tokens, sep), sep) == tokens
    decreases |tokens|
  {
    var t := tokens[0];
    if |tokens| == 1 {
      SplitAfterToken(t, "", sep);
      assert t + "" == t;
      assert Split(t, sep) == [t + ""];
    } else {
      var w := Join(tokens[1..], sep);
      SplitJoin(tokens[1..], sep);
      assert Split([sep] + w, sep) == [""] + Split(w, sep) by {
        assert ([sep] + w)[1..] == w;
      }
      SplitAfterToken(t, [sep] + w, sep);
      assert t + [sep] + w == t + ([sep] + w);
      assert ([""] + tokens[1..])[0] == "";
      assert ([""] + tokens[1..])[1..] == tokens[1..];
      assert t + "" == t;
      assert [t] + tokens[1..] == tokens;
    }
  }
}
