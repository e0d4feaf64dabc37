/** Lines of text joined with, and split at, the newline character, as
    `Vec<String>::join("\n")` and `str::split('\n')` do. */
module Text {
  import opened Common

  const Newline: char := '\n'

  /** The lines joined with a newline between each two of them. */
  function Join(ls: seq<seq<char>>): (t: seq<char>)
    ensures |ls| == 0 ==> t == []
    ensures |ls| > 0 ==> |t| >= |ls[0]| && t[..|ls[0]|] == ls[0]
    ensures |ls| > 1 ==> |t| > |ls[0]| && t[|ls[0]|] == Newline
  {
    if |ls| == 0 then []
    else if |ls| == 1 then ls[0]
    else ls[0] + [Newline] + Join(ls[1..])
  }

  /** The pieces of `t` between newlines; the empty string is one empty piece. */
  function Split(t: seq<char>): (ls: seq<seq<char>>)
    ensures |ls| > 0
    decreases |t|
  {
    var i := IndexOf(t, Newline);
    if i == |t| then [t] else [t[..i]] + Split(t[i + 1..])
  }

  /** No line contains a newline. */
  predicate NoNewlines(ls: seq<seq<char>>)
  {
    forall i :: 0 <= i < |ls| ==> Newline !in ls[i]
  }

  /** Splitting the joined text gives the lines back, when there is at
      least one line and none contains a newline. */
  lemma {:induction false} SplitJoin(ls: seq<seq<char>>)
    requires |ls| > 0 && NoNewlines(ls)
    ensures Split(Join(ls)) == ls
    decreases |ls|
  {
    var head := ls[0];
    assert Newline !in head;
    if |ls| == 1 {
      assert IndexOf(head, Newline) == |head|;
    } else {
      var rest := Join(ls[1..]);
      assert Join(ls) == head + [Newline] + rest;
      SplitAfterLine(head, rest);
      NoNewlinesTail(ls);
      SplitJoin(ls[1..]);
      assert ls == [head] + ls[1..];
    }
  }

  /** A newline-free line followed by a newline splits off as the first piece. */
  lemma SplitAfterLine(head: seq<char>, rest: seq<char>)
    requires Newline !in head
    ensures Split(head + [Newline] + rest) == [head] + Split(rest)
  {
    var t := head + [Newline] + rest;
    IndexAfterLine(head, rest);
    assert t[..|head|] == head && t[|head| + 1..] == rest;
  }

  lemma NoNewlinesTail(ls: seq<seq<char>>)
    requires |ls| > 0 && NoNewlines(ls)
    ensures NoNewlines(ls[1..])
  {
    forall i | 0 <= i < |ls| - 1 ensures Newline !in ls[1..][i] {
      assert ls[1..][i] == ls[i + 1];
    }
  }

  /** The first newline after a newline-free line is the one that ends it. */
  lemma IndexAfterLine(head: seq<char>, rest: seq<char>)
    requires Newline !in head
    ensures IndexOf(head + [Newline] + rest, Newline) == |head|
  {
    var t := head + [Newline] + rest;
    assert t[|head|] == Newline;
    forall j | 0 <= j < |head| ensures t[j] != Newline {
      assert t[j] == head[j];
    }
  }

  /** Joining the pieces gives the text back. */
  lemma {:induction false} JoinSplit(t: seq<char>)
    ensures Join(Split(t)) == t
    decreases |t|
  {
    var i := IndexOf(t, Newline);
    if i < |t| {
      var head, rest := t[..i], t[i + 1..];
      assert Split(t) == [head] + Split(rest);
      JoinSplit(rest);
      JoinCons(head, Split(rest));
      assert t == head + [Newline] + rest;
    }
  }

  lemma JoinCons(head: seq<char>, ls: seq<seq<char>>)
    requires |ls| > 0
    ensures Join([head] + ls) == head + [Newline] + Join(ls)
  {
    assert ([head] + ls)[0] == head && ([head] + ls)[1..] == ls;
  }

  /** Every piece of a split is free of newlines. */
  lemma {:induction false} SplitNoNewlines(t: seq<char>)
    ensures NoNewlines(Split(t))
    decreases |t|
  {
    var i := IndexOf(t, Newline);
    if i < |t| {
      SplitNoNewlines(t[i + 1..]);
      assert Newline !in t[..i] by {
        forall j | 0 <= j < i ensures t[..i][j] != Newline {
          assert t[..i][j] == t[j];
        }
      }
      NoNewlinesCons(t[..i], Split(t[i + 1..]));
    }
  }

  lemma NoNewlinesCons(head: seq<char>, tail: seq<seq<char>>)
    requires Newline !in head && NoNewlines(tail)
    ensures NoNewlines([head] + tail)
  {
    var ls := [head] + tail;
    forall k | 0 <= k < |ls| ensures Newline !in ls[k] {
      if k > 0 {
        assert ls[k] == tail[k - 1];
      }
    }
  }
}
