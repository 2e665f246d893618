/** Splitting, joining and replacing by leftmost occurrences. */
module Splitting {
  import opened Wrappers

  /** The leftmost occurrence of `d` in `s`. */
  function Find(s: string, d: string): (r: Option<nat>)
    ensures r.Some? ==> r.value + |d| <= |s| && s[r.value..r.value + |d|] == d
  {
    if |s| < |d| then None
    else if s[..|d|] == d then Some(0)
    else if s == [] then None
    else
      match Find(s[1..], d)
      case None => None
      case Some(i) =>
        assert s[i + 1..i + 1 + |d|] == s[1..][i..i + |d|];
        Some(i + 1)
  }

  ghost predicate OccursAt(s: string, d: string, i: nat) {
    i + |d| <= |s| && s[i..i + |d|] == d
  }

  /** Nothing before the reported occurrence is one, and without a report there is none. */
  lemma {:induction false} FindIsLeftmost(s: string, d: string, i: nat)
    requires OccursAt(s, d, i)
    ensures Find(s, d).Some? && Find(s, d).value <= i
  {
    if i > 0 && s[..|d|] != d {
      assert s[1..][i - 1..i - 1 + |d|] == s[i..i + |d|];
      FindIsLeftmost(s[1..], d, i - 1);
    }
  }

  function Split(s: string, d: string): (parts: seq<string>)
    requires d != []
    ensures parts != []
    decreases |s|
  {
    match Find(s, d)
    case None => [s]
    case Some(e) => [s[..e]] + Split(s[e + |d|..], d)
  }

  method StringSplit(s: string, d: string) returns (parts: seq<string>)
    requires d != []
    ensures parts == Split(s, d)
  {
    hide Split, Find;
    parts := [];
    var start := 0;
    assert s[0..] == s;
    var end := Find(s, d);
    while end.Some?
      invariant start <= |s| && end == Find(s[start..], d)
      invariant parts + Split(s[start..], d) == Split(s, d)
      decreases |s| - start
    {
      var e := start + end.value;
      ghost var tail := s[start..];
      Slices(s, start, e, |d|);
      SplitFirst(tail, d, s[start..e], s[e + |d|..]);
      parts := parts + [s[start..e]];
      start := e + |d|;
      end := Find(s[start..], d);
    }
    SplitStep(s[start..], d);
    parts := parts + [s[start..]];
  }

  lemma SplitStep(s: string, d: string)
    requires d != []
    ensures Split(s, d) ==
            match Find(s, d) case None => [s] case Some(e) => [s[..e]] + Split(s[e + |d|..], d)
  {
  }

  lemma Slices(s: string, i: nat, e: nat, n: nat)
    requires i <= e && e + n <= |s|
    ensures s[i..][..e - i] == s[i..e] && s[i..][e - i + n..] == s[e + n..]
  {
  }

  lemma SplitFirst(s: string, d: string, front: string, rest: string)
    requires d != [] && Find(s, d).Some?
    requires front == s[..Find(s, d).value] && rest == s[Find(s, d).value + |d|..]
    ensures Split(s, d) == [front] + Split(rest, d)
  {
    hide Find;
  }

  function Join(parts: seq<string>, d: string): string {
    if parts == [] then [] else Join(parts[..|parts| - 1], d) + (if |parts| > 1 then d else []) + parts[|parts| - 1]
  }

  method StringJoin(parts: seq<string>, d: string) returns (s: string)
    ensures s == Join(parts, d)
  {
    s := [];
    for i := 0 to |parts|
      invariant s == Join(parts[..i], d)
    {
      assert parts[..i + 1][..i] == parts[..i];
      if i > 0 {
        s := s + d;
      }
      s := s + parts[i];
    }
    assert parts[..|parts|] == parts;
  }

  function ReplaceAll(s: string, a: string, b: string): string
    decreases |s|
  {
    if a == [] then s
    else
      match Find(s, a)
      case None => s
      case Some(e) => s[..e] + b + ReplaceAll(s[e + |a|..], a, b)
  }

  method StringReplaceAll(s: string, a: string, b: string) returns (r: string)
    ensures r == ReplaceAll(s, a, b)
  {
    hide *;
    if a == [] {
      NothingToReplace(s, b);
      return s;
    }
    ghost var whole := ReplaceAll(s, a, b);
    r := [];
    var last := 0;
    ReplaceStart(s, a, b);
    var pos := Find(s, a);
    while pos.Some?
      invariant last <= |s| && pos == Find(s[last..], a)
      invariant Replaced(whole, r, s[last..], a, b)
      decreases |s| - last
    {
      var e := last + pos.value;
      Slices(s, last, e, |a|);
      ReplaceNext(whole, r, s[last..], s[last..e], s[e + |a|..], a, b);
      r := r + s[last..e] + b;
      last := e + |a|;
      pos := Find(s[last..], a);
    }
    ReplaceEnd(whole, r, s[last..], a, b);
    r := r + s[last..];
  }

  /** `r` is the result so far, and `rest` has still to be searched. */
  predicate Replaced(whole: string, r: string, rest: string, a: string, b: string) {
    whole == r + ReplaceAll(rest, a, b)
  }

  lemma NothingToReplace(s: string, b: string)
    ensures ReplaceAll(s, [], b) == s
  {
  }

  lemma ReplaceStart(s: string, a: string, b: string)
    ensures s[0..] == s && Replaced(ReplaceAll(s, a, b), [], s, a, b)
  {
    hide ReplaceAll;
    assert [] + ReplaceAll(s, a, b) == ReplaceAll(s, a, b);
  }

  lemma Reassociate(r: string, x: string, b: string, rest: string)
    ensures r + (x + b + rest) == (r + x + b) + rest
  {
  }

  lemma ReplaceStep(s: string, a: string, b: string)
    requires a != []
    ensures Find(s, a).None? ==> ReplaceAll(s, a, b) == s
    ensures Find(s, a).Some? ==>
              var e := Find(s, a).value; ReplaceAll(s, a, b) == s[..e] + b + ReplaceAll(s[e + |a|..], a, b)
  {
    hide Find;
  }

  lemma ReplaceEnd(whole: string, r: string, rest: string, a: string, b: string)
    requires a != [] && Find(rest, a).None? && Replaced(whole, r, rest, a, b)
    ensures whole == r + rest
  {
    hide Find, ReplaceAll;
    ReplaceStep(rest, a, b);
  }

  lemma ReplaceNext(whole: string, r: string, rest: string, front: string, rest': string, a: string, b: string)
    requires a != [] && Find(rest, a).Some? && Replaced(whole, r, rest, a, b)
    requires front == rest[..Find(rest, a).value] && rest' == rest[Find(rest, a).value + |a|..]
    ensures Replaced(whole, r + front + b, rest', a, b)
  {
    hide Find, ReplaceAll;
    ReplaceStep(rest, a, b);
    Reassociate(r, front, b, ReplaceAll(rest', a, b));
  }

  // ----- Laws -----------------------------------------------------------------

  lemma {:induction false} JoinFront(x: string, parts: seq<string>, d: string)
    requires parts != []
    ensures Join([x] + parts, d) == x + d + Join(parts, d)
    decreases |parts|
  {
    var n := |parts| - 1;
    assert ([x] + parts)[..n + 1] == [x] + parts[..n];
    assert ([x] + parts)[n + 1] == parts[n];
    if n == 0 {
      assert [x][..0] == [] && [x] + parts[..0] == [x];
      assert Join([x], d) == x && Join(parts, d) == parts[0] by {
        assert parts[..0] == [];
      }
      assert x + d + parts[0] == (x + d) + parts[0];
    } else {
      JoinFront(x, parts[..n], d);
      assert (x + d + Join(parts[..n], d)) + d + parts[n] == x + d + (Join(parts[..n], d) + d + parts[n]);
    }
  }

  lemma JoinOne(x: string, d: string)
    ensures Join([x], d) == x
  {
    assert [x][..0] == [];
  }

  /** Joining undoes splitting. */
  lemma {:induction false} JoinSplit(s: string, d: string)
    requires d != []
    ensures Join(Split(s, d), d) == s
    decreases |s|
  {
    hide Find, Split, Join;
    SplitStep(s, d);
    match Find(s, d)
    case None => JoinOne(s, d);
    case Some(e) =>
      JoinSplit(s[e + |d|..], d);
      JoinFront(s[..e], Split(s[e + |d|..], d), d);
      assert s == s[..e] + s[e..e + |d|] + s[e + |d|..];
  }

  /** Each part but the last ends where the first separator after it begins, and the last holds none. */
  ghost predicate CutAtFirst(parts: seq<string>, d: string)
  {
    && parts != []
    && (forall k :: 0 <= k < |parts| - 1 ==> Find(parts[k] + d, d) == Some(|parts[k]|))
    && Find(parts[|parts| - 1], d) == None
  }

  /** The first occurrence is found at the same place when the text goes on behind it. */
  lemma {:induction false} FindInPrefix(s: string, t: string, d: string)
    requires d != [] && Find(s, d).Some?
    ensures Find(s + t, d) == Find(s, d)
  {
    if s[..|d|] == d {
      assert (s + t)[..|d|] == s[..|d|];
    } else {
      assert (s + t)[..|d|] == s[..|d|];
      assert (s + t)[1..] == s[1..] + t;
      FindInPrefix(s[1..], t, d);
    }
  }

  lemma {:induction false} FindAtFirstEnd(s: string, d: string, e: nat)
    requires d != [] && Find(s, d) == Some(e)
    ensures Find(s[..e] + d, d) == Some(e)
  {
    hide Find;
    var p := s[..e] + d;
    assert p[e..e + |d|] == d;
    FindIsLeftmost(p, d, e);
    var i := Find(p, d).value;
    if i < e {
      assert s[e..e + |d|] == d;
      assert s == p + s[e + |d|..];
      FindInPrefix(p, s[e + |d|..], d);
      assert false;
    }
  }

  lemma {:induction false} SplitCutsAtFirst(s: string, d: string)
    requires d != []
    ensures CutAtFirst(Split(s, d), d)
    decreases |s|
  {
    hide Find, Split;
    SplitStep(s, d);
    match Find(s, d)
    case None =>
    case Some(e) =>
      var rest := Split(s[e + |d|..], d);
      SplitCutsAtFirst(s[e + |d|..], d);
      FindAtFirstEnd(s, d, e);
      var parts := [s[..e]] + rest;
      forall k | 0 <= k < |parts| - 1 ensures Find(parts[k] + d, d) == Some(|parts[k]|) {
        if k > 0 {
          assert parts[k] == rest[k - 1];
        }
      }
  }

  lemma SplitOfJoined(x: string, rest: string, d: string)
    requires d != [] && Find(x + d, d) == Some(|x|)
    ensures Split(x + d + rest, d) == [x] + Split(rest, d)
  {
    hide Find, Split;
    FindInPrefix(x + d, rest, d);
    var s := x + d + rest;
    assert s[..|x|] == x && s[|x| + |d|..] == rest;
    SplitFirst(s, d, x, rest);
  }

  lemma {:induction false} CutsAreTheSplit(parts: seq<string>, d: string)
    requires d != [] && CutAtFirst(parts, d)
    ensures Split(Join(parts, d), d) == parts
    decreases |parts|
  {
    hide Find, Split, Join;
    if |parts| == 1 {
      JoinOne(parts[0], d);
      SplitStep(parts[0], d);
      assert parts == [parts[0]];
    } else {
      var x, rest := parts[0], parts[1..];
      assert parts == [x] + rest;
      forall k | 0 <= k < |rest| - 1 ensures Find(rest[k] + d, d) == Some(|rest[k]|) {
        assert rest[k] == parts[k + 1];
      }
      CutsAreTheSplit(rest, d);
      JoinFront(x, rest, d);
      assert Find(parts[0] + d, d) == Some(|parts[0]|);
      SplitOfJoined(x, Join(rest, d), d);
    }
  }

  /** The split is the one way to write the text as joined parts that are cut at first separators. */
  lemma SplitExactly(s: string, d: string, parts: seq<string>)
    requires d != []
    ensures parts == Split(s, d) <==> Join(parts, d) == s && CutAtFirst(parts, d)
  {
    JoinSplit(s, d);
    SplitCutsAtFirst(s, d);
    if Join(parts, d) == s && CutAtFirst(parts, d) {
      CutsAreTheSplit(parts, d);
    }
  }

  /** No part holds the separator. */
  lemma NoPartHoldsSeparator(s: string, d: string, k: nat, i: nat)
    requires d != [] && k < |Split(s, d)|
    ensures !OccursAt(Split(s, d)[k], d, i)
  {
    var parts := Split(s, d);
    SplitCutsAtFirst(s, d);
    if OccursAt(parts[k], d, i) {
      FindIsLeftmost(parts[k], d, i);
      if k < |parts| - 1 {
        FindInPrefix(parts[k], d, d);
        assert false;
      }
    }
  }

  /** Replacing is splitting at the one text and joining with the other. */
  lemma {:induction false} ReplaceIsSplitJoin(s: string, a: string, b: string)
    requires a != []
    ensures ReplaceAll(s, a, b) == Join(Split(s, a), b)
    decreases |s|
  {
    match Find(s, a)
    case None => JoinOne(s, b);
    case Some(e) =>
      ReplaceIsSplitJoin(s[e + |a|..], a, b);
      JoinFront(s[..e], Split(s[e + |a|..], a), b);
  }

  /** Replacing, read from the left: an occurrence at the front is replaced, any other character stays. */
  lemma ReplaceFromLeft(s: string, a: string, b: string)
    requires a != [] && s != []
    ensures ReplaceAll(s, a, b) ==
            if |a| <= |s| && s[..|a|] == a then b + ReplaceAll(s[|a|..], a, b) else [s[0]] + ReplaceAll(s[1..], a, b)
  {
    hide ReplaceAll, Find;
    ReplaceStep(s, a, b);
    if |a| <= |s| && s[..|a|] == a {
      FindIsLeftmost(s, a, 0);
      assert s[..0] + b == b;
    } else {
      ReplaceStep(s[1..], a, b);
      FindLater(s, a);
      assert s == [s[0]] + s[1..];
      if Find(s, a).Some? {
        var e := Find(s, a).value;
        assert s[..e] == [s[0]] + s[1..][..e - 1];
        assert s[e + |a|..] == s[1..][e - 1 + |a|..];
        PrependAssoc(s[0], s[1..][..e - 1], b, ReplaceAll(s[e + |a|..], a, b));
      }
    }
  }

  lemma FindLater(s: string, a: string)
    requires a != [] && s != [] && !(|a| <= |s| && s[..|a|] == a)
    ensures Find(s, a).None? <==> Find(s[1..], a).None?
    ensures Find(s, a).Some? ==> Find(s, a).value > 0 && Find(s[1..], a) == Some(Find(s, a).value - 1)
  {
    if |s| < |a| {
      assert |s[1..]| < |a|;
    }
  }

  lemma PrependAssoc(c: char, x: string, b: string, rest: string)
    ensures ([c] + x) + b + rest == [c] + (x + b + rest)
  {
  }
}
