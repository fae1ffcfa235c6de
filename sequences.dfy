/** Terminator-separated lists: the NUL-terminated child IDs of a CTOC body and
    the newline-terminated lines of the FFmpeg metadata text share this shape. */
module Sequences {

  /** The first position of x in s, or |s| when x does not occur. */
  function IndexOf<T(==)>(s: seq<T>, x: T): (i: nat)
    ensures i <= |s| && x !in s[..i]
    ensures i < |s| ==> s[i] == x
  {
    if s == [] then 0
    else if s[0] == x then 0
    else
      var j := IndexOf(s[1..], x);
      assert s[..1 + j] == [s[0]] + s[1..][..j];
      1 + j
  }

  /** Each part followed by the terminator, concatenated in order. */
  function Terminated<T>(parts: seq<seq<T>>, sep: T): seq<T>
  {
    if parts == [] then [] else parts[0] + [sep] + Terminated(parts[1..], sep)
  }

  /** Splits s after each terminator; a trailing unterminated piece is kept. */
  function SplitTerminated<T(==)>(s: seq<T>, sep: T): seq<seq<T>>
    decreases |s|
  {
    if s == [] then []
    else
      var i := IndexOf(s, sep);
      if i == |s| then [s] else [s[..i]] + SplitTerminated(s[i + 1..], sep)
  }

  lemma ConcatAssoc<T>(a: seq<T>, b: seq<T>, c: seq<T>)
    ensures a + (b + c) == a + b + c
  {
  }

  lemma {:induction false} TerminatedAppend<T>(a: seq<seq<T>>, b: seq<seq<T>>, sep: T)
    ensures Terminated(a + b, sep) == Terminated(a, sep) + Terminated(b, sep)
  {
    if a != [] {
      assert (a + b)[0] == a[0];
      assert (a + b)[1..] == a[1..] + b;
      TerminatedAppend(a[1..], b, sep);
      calc {
        Terminated(a + b, sep);
        a[0] + [sep] + Terminated(a[1..] + b, sep);
        a[0] + [sep] + (Terminated(a[1..], sep) + Terminated(b, sep));
        (a[0] + [sep] + Terminated(a[1..], sep)) + Terminated(b, sep);
      }
    } else {
      assert a + b == b;
    }
  }

  lemma {:induction false} IndexOfTerminator<T>(p: seq<T>, sep: T, rest: seq<T>)
    requires sep !in p
    ensures IndexOf(p + [sep] + rest, sep) == |p|
  {
    var s := p + [sep] + rest;
    if p != [] {
      assert s[0] == p[0] && s[0] != sep;
      assert s[1..] == p[1..] + [sep] + rest;
      IndexOfTerminator(p[1..], sep, rest);
    }
  }

  /** Splitting undoes termination when no part contains the terminator. */
  lemma {:induction false} SplitTerminatedInverse<T>(parts: seq<seq<T>>, sep: T)
    requires forall i :: 0 <= i < |parts| ==> sep !in parts[i]
    ensures SplitTerminated(Terminated(parts, sep), sep) == parts
  {
    if parts != [] {
      SplitStep(parts[0], sep, Terminated(parts[1..], sep));
      SplitTerminatedInverse(parts[1..], sep);
      assert parts == [parts[0]] + parts[1..];
    }
  }

  /** Splitting takes off one terminated piece at a time. */
  lemma SplitStep<T>(p: seq<T>, sep: T, rest: seq<T>)
    requires sep !in p
    ensures SplitTerminated(p + [sep] + rest, sep) == [p] + SplitTerminated(rest, sep)
  {
    var s := p + [sep] + rest;
    IndexOfTerminator(p, sep, rest);
    assert s[..|p|] == p;
    assert s[|p| + 1..] == rest;
  }

  /** bytes.Replace(s, pat, nil, 1): drop the first occurrence of pat. */
  function RemoveFirst<T(==)>(s: seq<T>, pat: seq<T>): seq<T>
    decreases |s|
  {
    if |pat| <= |s| && s[..|pat|] == pat then s[|pat|..]
    else if s == [] then []
    else [s[0]] + RemoveFirst(s[1..], pat)
  }

  /** Moves a separator out of a literal and regroups the rest to the right. */
  lemma Regroup<T>(q: seq<T>, n: seq<T>, lit: seq<T>, x: seq<T>, rest: seq<T>)
    ensures q + (n + lit) + x + rest == q + n + (lit + x + rest)
  {
  }

  /** One step of Terminated, taken at position k. */
  lemma TerminatedUnfold<T>(l: seq<seq<T>>, k: nat, sep: T)
    requires k < |l|
    ensures Terminated(l[k..], sep) == l[k] + [sep] + Terminated(l[k + 1..], sep)
  {
    assert l[k..][0] == l[k] && l[k..][1..] == l[k + 1..];
  }
}
