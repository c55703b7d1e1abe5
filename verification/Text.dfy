/** The string operations the rule parser uses, on ASCII text. */
module Text {
  import opened Sequences

  predicate IsSpace(c: char) {
    c == ' ' || '\t' <= c <= '\r'
  }

  predicate SpaceFree(s: string) {
    forall i :: 0 <= i < |s| ==> !IsSpace(s[i])
  }

  function TrimLeft(s: string): string {
    if s != "" && IsSpace(s[0]) then TrimLeft(s[1..]) else s
  }

  function TrimRight(s: string): string {
    if s != "" && IsSpace(Last(s)) then TrimRight(Front(s)) else s
  }

  function TrimSpace(s: string): string {
    TrimRight(TrimLeft(s))
  }

  function TrimSuffix(s: string, c: char): string {
    if s != "" && Last(s) == c then Front(s) else s
  }

  function LowerChar(c: char): char {
    if 'A' <= c <= 'Z' then c - 'A' + 'a' else c
  }

  function Lower(s: string): (r: string)
    ensures |r| == |s|
    ensures forall i :: 0 <= i < |s| ==> r[i] == LowerChar(s[i])
  {
    seq(|s|, i requires 0 <= i < |s| => LowerChar(s[i]))
  }

  /** The first position of `c`, or -1. */
  function IndexOf(s: string, c: char): (i: int)
    ensures -1 <= i < |s|
    ensures i >= 0 ==> s[i] == c && c !in s[..i]
    ensures i < 0 ==> c !in s
  {
    if s == "" then -1
    else if s[0] == c then 0
    else
      var rest := IndexOf(s[1..], c);
      assert forall j :: 0 < j < |s| ==> s[j] == s[1..][j - 1];
      if rest < 0 then -1 else
        assert forall j :: 0 < j < rest + 1 ==> s[j] == s[1..][..rest][j - 1];
        rest + 1
  }

  function Split(s: string, sep: char): (r: seq<string>)
    ensures |r| >= 1
    decreases |s|
  {
    var i := IndexOf(s, sep);
    if i < 0 then [s] else [s[..i]] + Split(s[i + 1..], sep)
  }

  function Join(parts: seq<string>, sep: char): string
    requires parts != []
  {
    if |parts| == 1 then parts[0] else parts[0] + [sep] + Join(parts[1..], sep)
  }

  /** Length of the parts, each with one terminator. */
  function Total(parts: seq<string>): nat {
    if parts == [] then 0 else Total(Front(parts)) + |Last(parts)| + 1
  }

  lemma {:induction false} TotalCons(head: string, tail: seq<string>)
    ensures Total([head] + tail) == |head| + 1 + Total(tail)
    decreases |tail|
  {
    if tail == [] {
      assert [head] + tail == [head];
    } else {
      var n := |tail| - 1;
      TotalCons(head, tail[..n]);
      assert ([head] + tail)[..n + 1] == [head] + tail[..n];
    }
  }

  lemma {:induction false} JoinLength(parts: seq<string>, sep: char)
    requires parts != []
    ensures |Join(parts, sep)| + 1 == Total(parts)
    decreases |parts|
  {
    if |parts| == 1 {
      assert parts[..0] == [];
    } else {
      JoinLength(parts[1..], sep);
      assert parts == [parts[0]] + parts[1..];
      TotalCons(parts[0], parts[1..]);
    }
  }

  lemma JoinCons(head: string, tail: seq<string>, sep: char)
    requires tail != []
    ensures Join([head] + tail, sep) == head + [sep] + Join(tail, sep)
  {
    assert ([head] + tail)[1..] == tail;
  }

  /** Joining the pieces of a split gives the text back. */
  lemma {:induction false} JoinSplit(s: string, sep: char)
    ensures Join(Split(s, sep), sep) == s
    decreases |s|
  {
    var i := IndexOf(s, sep);
    if i < 0 {
    } else {
      var head, tail := s[..i], s[i + 1..];
      JoinSplit(tail, sep);
      JoinCons(head, Split(tail, sep), sep);
      assert s == head + [sep] + tail;
    }
  }

  lemma FirstIndex(s: string, c: char, rest: string)
    requires c !in s
    ensures IndexOf(s + [c] + rest, c) == |s|
  {
    var t := s + [c] + rest;
    var i := IndexOf(t, c);
    assert t[|s|] == c;
    assert forall j :: 0 <= j < |s| ==> t[j] == s[j];
  }

  lemma SplitFirst(head: string, sep: char, rest: string)
    requires sep !in head
    ensures Split(head + [sep] + rest, sep) == [head] + Split(rest, sep)
  {
    var t := head + [sep] + rest;
    FirstIndex(head, sep, rest);
    assert t[..|head|] == head && t[|head| + 1..] == rest;
  }

  /** Splitting joined parts gives the parts back when none contains the separator. */
  lemma {:induction false} SplitJoin(parts: seq<string>, sep: char)
    requires parts != [] && forall i :: 0 <= i < |parts| ==> sep !in parts[i]
    ensures Split(Join(parts, sep), sep) == parts
    decreases |parts|
  {
    if |parts| == 1 {
    } else {
      SplitJoin(parts[1..], sep);
      SplitFirst(parts[0], sep, Join(parts[1..], sep));
      assert parts == [parts[0]] + parts[1..];
    }
  }

  lemma {:induction false} JoinTerminated(parts: seq<string>, sep: char)
    requires parts != []
    ensures Join(parts + [""], sep) == Join(parts, sep) + [sep]
    decreases |parts|
  {
    if |parts| == 1 {
      assert (parts + [""])[1..] == [""];
    } else {
      JoinTerminated(parts[1..], sep);
      assert (parts + [""])[1..] == parts[1..] + [""];
    }
  }

  /** A text that ends in the separator has an empty piece. */
  lemma {:induction false} SplitTrailing(s: string, sep: char)
    requires s != "" && Last(s) == sep
    ensures "" in Split(s, sep)
    decreases |s|
  {
    var i := IndexOf(s, sep);
    var tail := s[i + 1..];
    assert Split(s, sep) == [s[..i]] + Split(tail, sep);
    if tail == "" {
      assert Split(tail, sep) == [""];
    } else {
      SplitTrailing(tail, sep);
    }
  }

  lemma {:induction false} TrimShrinks(s: string)
    ensures |TrimLeft(s)| <= |s| && |TrimRight(s)| <= |s|
    decreases |s|
  {
    if s == "" {
    } else {
      TrimShrinks(s[1..]);
      TrimShrinks(Front(s));
    }
  }

  lemma TrimSpaceShrinks(s: string)
    ensures |TrimSpace(s)| <= |s|
  {
    TrimShrinks(s);
    TrimShrinks(TrimLeft(s));
  }

  lemma SpaceFreeTrim(s: string)
    requires SpaceFree(s)
    ensures TrimSpace(s) == s && TrimSuffix(s, '\r') == s
  {
  }
}
