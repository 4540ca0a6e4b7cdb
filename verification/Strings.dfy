/** The string functions of Go's standard library that the models need, and the facts that tie
    dotted keys to the paths they name. */
module Strings {

  /** The first position of c in s, or -1. */
  function IndexByte(s: string, c: char): (i: int)
    ensures -1 <= i < |s|
    ensures i == -1 ==> c !in s
    ensures i >= 0 ==> s[i] == c && c !in s[..i]
  {
    if s == "" then -1
    else if s[0] == c then 0
    else
      var j := IndexByte(s[1..], c);
      if j == -1 then -1 else j + 1
  }

  /** The parts of s between the occurrences of sep: always at least one. */
  function Split(s: string, sep: char): (parts: seq<string>)
    ensures |parts| > 0
    ensures forall i :: 0 <= i < |parts| ==> sep !in parts[i]
    decreases |s|
  {
    var i := IndexByte(s, sep);
    if i == -1 then [s] else [s[..i]] + Split(s[i + 1..], sep)
  }

  function Join(parts: seq<string>, sep: char): string {
    if |parts| == 0 then ""
    else if |parts| == 1 then parts[0]
    else parts[0] + [sep] + Join(parts[1..], sep)
  }

  function TrimPrefix(s: string, prefix: string): string {
    if prefix <= s then s[|prefix|..] else s
  }

  predicate HasSuffix(s: string, suffix: string) {
    |suffix| <= |s| && s[|s| - |suffix|..] == suffix
  }

  function TrimSuffix(s: string, suffix: string): string {
    if HasSuffix(s, suffix) then s[..|s| - |suffix|] else s
  }

  lemma {:induction false} IndexFound(s: string, c: char, i: nat)
    requires i < |s| && s[i] == c && c !in s[..i]
    ensures IndexByte(s, c) == i
  {
    assert s[i] in s;
  }

  /** Splitting after a leading part without separators. */
  lemma {:induction false} SplitCons(a: string, s: string, sep: char)
    requires sep !in a
    requires a + [sep] <= s
    ensures Split(s, sep) == [a] + Split(s[|a| + 1..], sep)
  {
    assert s[..|a|] == a;
    assert s[|a|] == (a + [sep])[|a|];
    IndexFound(s, sep, |a|);
  }

  lemma {:induction false} NoSeparator(s: string, sep: char)
    ensures |Split(s, sep)| == 1 <==> IndexByte(s, sep) == -1
    ensures sep !in s ==> Split(s, sep) == [s]
  {
  }

  /** The parts, each followed by the separator. */
  function Terminated(parts: seq<string>, sep: char): string {
    if parts == [] then "" else parts[0] + [sep] + Terminated(parts[1..], sep)
  }

  lemma {:induction false} TerminatedIsJoin(parts: seq<string>, sep: char)
    requires |parts| > 0
    ensures Terminated(parts, sep) == Join(parts, sep) + [sep]
    decreases |parts|
  {
    if |parts| == 1 {
      assert Terminated(parts[1..], sep) == "";
    } else {
      TerminatedIsJoin(parts[1..], sep);
    }
  }

  lemma {:induction false} PrefixInTwo(x: string, y: string, s: string)
    ensures x + y <= s <==> x <= s && y <= s[|x|..]
  {
    if x + y <= s {
      assert x == (x + y)[..|x|] == s[..|x|];
      assert y == (x + y)[|x|..] == s[|x|..|x| + |y|];
    }
  }

  /** The text s starts with the terminated parts exactly when the parts are a proper prefix of
      the parts of s. */
  lemma {:induction false} TerminatedPrefix(parts: seq<string>, s: string, sep: char)
    requires forall i :: 0 <= i < |parts| ==> sep !in parts[i]
    ensures Terminated(parts, sep) <= s <==> parts < Split(s, sep)
    decreases |parts|
  {
    if parts != [] {
      var a := parts[0];
      PrefixInTwo(a + [sep], Terminated(parts[1..], sep), s);
      if a + [sep] <= s {
        SplitCons(a, s, sep);
        TerminatedPrefix(parts[1..], s[|a| + 1..], sep);
        PrefixCons(a, parts, Split(s, sep), Split(s[|a| + 1..], sep));
      } else if parts < Split(s, sep) {
        FirstPart(s, a, sep);
      }
    }
  }

  /** What follows the terminated parts splits into the other parts. */
  lemma {:induction false} SplitAfter(parts: seq<string>, s: string, sep: char)
    requires forall i :: 0 <= i < |parts| ==> sep !in parts[i]
    requires Terminated(parts, sep) <= s
    ensures |parts| <= |Split(s, sep)|
    ensures Split(s[|Terminated(parts, sep)|..], sep) == Split(s, sep)[|parts|..]
    decreases |parts|
  {
    TerminatedPrefix(parts, s, sep);
    if parts != [] {
      var a := parts[0];
      PrefixInTwo(a + [sep], Terminated(parts[1..], sep), s);
      var rest := s[|a| + 1..];
      SplitCons(a, s, sep);
      SplitAfter(parts[1..], rest, sep);
      PrefixCons(a, parts, Split(s, sep), Split(rest, sep));
      assert s[|Terminated(parts, sep)|..] == rest[|Terminated(parts[1..], sep)|..];
    }
  }

  lemma {:induction false} PrefixCons(a: string, parts: seq<string>, all: seq<string>, rest: seq<string>)
    requires parts != [] && parts[0] == a
    requires all == [a] + rest
    ensures parts < all <==> parts[1..] < rest
    ensures |parts| <= |all| ==> all[|parts|..] == rest[|parts| - 1..]
  {
    assert parts == [a] + parts[1..];
    assert all[1..] == rest;
    if parts < all {
      assert parts[1..] == all[..|parts|][1..];
      assert all[..|parts|][1..] == rest[..|parts| - 1];
    }
    if parts[1..] < rest {
      assert all[..|parts|] == [a] + rest[..|parts| - 1];
    }
  }

  lemma {:induction false} FirstPart(s: string, a: string, sep: char)
    requires |Split(s, sep)| > 1 && Split(s, sep)[0] == a
    ensures a + [sep] <= s
  {
    var i := IndexByte(s, sep);
    assert s[..i + 1] == a + [sep];
  }

  lemma {:induction false} TerminatedCons(a: string, parts: seq<string>, sep: char)
    ensures Terminated([a] + parts, sep) == a + [sep] + Terminated(parts, sep)
  {
    assert ([a] + parts)[1..] == parts;
  }

  lemma {:induction false} CutAt(s: string, i: nat)
    requires i < |s|
    ensures s[..i] + [s[i]] + (s[i + 1..] + [s[i]]) == s + [s[i]]
  {
    assert s == s[..i] + [s[i]] + s[i + 1..];
  }

  lemma {:induction false} TerminatedSplit(s: string, sep: char)
    ensures Terminated(Split(s, sep), sep) == s + [sep]
    decreases |s|
  {
    var i := IndexByte(s, sep);
    if i == -1 {
      TerminatedCons(s, [], sep);
    } else {
      var a, rest := s[..i], s[i + 1..];
      TerminatedSplit(rest, sep);
      TerminatedCons(a, Split(rest, sep), sep);
      CutAt(s, i);
    }
  }

  lemma {:induction false} JoinSplit(s: string, sep: char)
    ensures Join(Split(s, sep), sep) == s
  {
    TerminatedSplit(s, sep);
    TerminatedIsJoin(Split(s, sep), sep);
    var j := Join(Split(s, sep), sep);
    assert (j + [sep])[..|j|] == (s + [sep])[..|s|];
  }

  lemma {:induction false} SplitJoin(parts: seq<string>, sep: char)
    requires |parts| > 0
    requires forall i :: 0 <= i < |parts| ==> sep !in parts[i]
    ensures Split(Join(parts, sep), sep) == parts
    decreases |parts|
  {
    if |parts| == 1 {
      NoSeparator(parts[0], sep);
    } else {
      var rest := Join(parts[1..], sep);
      SplitJoin(parts[1..], sep);
      SplitCons(parts[0], Join(parts, sep), sep);
      assert Join(parts, sep)[|parts[0]| + 1..] == rest;
    }
  }
}
