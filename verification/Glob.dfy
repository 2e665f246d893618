/** Glob patterns: `*` within a path component, `**` across components, `?`, and character classes. */
module Glob {

  // ----- Character classes ----------------------------------------------------

  datatype Item = Single(c: char) | Range(lo: char, hi: char)

  predicate ItemHas(i: Item, c: char) {
    match i
    case Single(d) => c == d
    case Range(lo, hi) => lo <= c <= hi
  }

  function Items(s: string): seq<Item> {
    if s == [] then []
    else if |s| > 2 && s[1] == '-' && s[2] != ']' then [Range(s[0], s[2])] + Items(s[3..])
    else [Single(s[0])] + Items(s[1..])
  }

  /** The items of a class body without its `!`: a bracket or dash in front stands for itself. */
  function ClassItems(s: string): seq<Item> {
    if s != [] && (s[0] == ']' || s[0] == '-') then [Single(s[0])] + Items(s[1..]) else Items(s)
  }

  predicate HasItem(items: seq<Item>, c: char) {
    exists i :: 0 <= i < |items| && ItemHas(items[i], c)
  }

  predicate InClass(c: char, body: string) {
    if body != [] && body[0] == '!' then !HasItem(ClassItems(body[1..]), c) else HasItem(ClassItems(body), c)
  }

  lemma HasItemFirst(first: Item, rest: seq<Item>, c: char)
    ensures HasItem([first] + rest, c) <==> ItemHas(first, c) || HasItem(rest, c)
  {
    if HasItem(rest, c) {
      var i :| 0 <= i < |rest| && ItemHas(rest[i], c);
      assert ([first] + rest)[i + 1] == rest[i];
    }
    if ItemHas(first, c) {
      assert ([first] + rest)[0] == first;
    }
  }

  /** Scans the class body. */
  method ClassMatch(c: char, body: string) returns (matches: bool)
    ensures matches == InClass(c, body)
  {
    var start, negated := 0, false;
    if body != [] && body[0] == '!' {
      negated := true;
      start := 1;
    }
    ghost var inner := body[start..];
    var matched := false;
    if start < |body| && (body[start] == ']' || body[start] == '-') {
      HasItemFirst(Single(body[start]), Items(inner[1..]), c);
      if body[start] == c {
        return !negated;
      }
      start := start + 1;
    }
    assert HasItem(Items(body[start..]), c) == HasItem(ClassItems(inner), c);
    while start < |body|
      invariant start <= |body|
      invariant !matched
      invariant HasItem(Items(body[start..]), c) == HasItem(ClassItems(inner), c)
    {
      ghost var s := body[start..];
      if start + 2 < |body| && body[start + 1] == '-' && body[start + 2] != ']' {
        HasItemFirst(Range(body[start], body[start + 2]), Items(s[3..]), c);
        if body[start] <= c <= body[start + 2] {
          matched := true;
          break;
        }
        start := start + 3;
      } else {
        HasItemFirst(Single(body[start]), Items(s[1..]), c);
        if body[start] == c {
          matched := true;
          break;
        }
        start := start + 1;
      }
    }
    matches := if negated then !matched else matched;
  }

  // ----- What a pattern means -------------------------------------------------

  datatype Element = AnyRun | NameRun | OneChar | OneOf(body: string) | Literal(c: char)

  /** Where the class that opens a pattern ends; a bracket or dash right after the opener does not end it. */
  function ClassEnd(p: string): (e: nat)
    requires p != []
    ensures 1 <= e <= |p| && (e < |p| ==> p[e] == ']')
  {
    FindBracket(p, if |p| > 1 && (p[1] == ']' || p[1] == '-') then 2 else 1)
  }

  function FindBracket(p: string, i: nat): (e: nat)
    requires i <= |p|
    ensures i <= e <= |p| && (e < |p| ==> p[e] == ']')
    decreases |p| - i
  {
    if i == |p| || p[i] == ']' then i else FindBracket(p, i + 1)
  }

  function Parse(p: string): seq<Element>
    decreases |p|
  {
    if p == [] then []
    else if p[0] == '*' && |p| > 1 && p[1] == '*' then [AnyRun] + Parse(p[2..])
    else if p[0] == '*' then [NameRun] + Parse(p[1..])
    else if p[0] == '?' then [OneChar] + Parse(p[1..])
    else if p[0] == '[' && ClassEnd(p) < |p| then [OneOf(p[1..ClassEnd(p)])] + Parse(p[ClassEnd(p) + 1..])
    else [Literal(p[0])] + Parse(p[1..])
  }

  predicate ElementMatches(e: Element, piece: string) {
    match e
    case AnyRun => true
    case NameRun => '/' !in piece
    case OneChar => |piece| == 1 && piece[0] != '/'
    case OneOf(body) => |piece| == 1 && InClass(piece[0], body)
    case Literal(c) => piece == [c]
  }

  function Flatten(pieces: seq<string>): string {
    if pieces == [] then [] else pieces[0] + Flatten(pieces[1..])
  }

  /** The text can be cut into pieces that match the elements one by one. */
  ghost predicate Fits(elements: seq<Element>, pieces: seq<string>, s: string) {
    && |pieces| == |elements| && Flatten(pieces) == s
    && forall i :: 0 <= i < |elements| ==> ElementMatches(elements[i], pieces[i])
  }

  ghost predicate Matches(elements: seq<Element>, s: string) {
    exists pieces :: Fits(elements, pieces, s)
  }

  lemma MatchesNothing(s: string)
    ensures Matches([], s) <==> s == []
  {
    assert Flatten([]) == [];
    if s == [] {
      assert Fits([], [], s);
    }
  }

  /** The first piece takes some `k` characters. */
  lemma FitsFirst(e: Element, rest: seq<Element>, s: string, k: nat)
    requires k <= |s| && ElementMatches(e, s[..k]) && Matches(rest, s[k..])
    ensures Matches([e] + rest, s)
  {
    var tail :| Fits(rest, tail, s[k..]);
    var pieces := [s[..k]] + tail;
    assert pieces[1..] == tail;
    assert s == s[..k] + s[k..];
    assert Fits([e] + rest, pieces, s);
  }

  lemma FirstPiece(e: Element, rest: seq<Element>, s: string) returns (k: nat)
    requires Matches([e] + rest, s)
    ensures k <= |s| && ElementMatches(e, s[..k]) && Matches(rest, s[k..])
  {
    var pieces :| Fits([e] + rest, pieces, s);
    k := |pieces[0]|;
    assert s[..k] == pieces[0] && s[k..] == Flatten(pieces[1..]);
    assert ElementMatches(([e] + rest)[0], pieces[0]);
    forall i | 0 <= i < |rest| ensures ElementMatches(rest[i], pieces[1..][i]) {
      assert ElementMatches(([e] + rest)[i + 1], pieces[i + 1]);
    }
    assert Fits(rest, pieces[1..], s[k..]);
  }

  /** An element that takes exactly one character. */
  lemma MatchesOne(e: Element, rest: seq<Element>, s: string)
    requires !e.AnyRun? && !e.NameRun?
    ensures Matches([e] + rest, s) <==> s != [] && ElementMatches(e, [s[0]]) && Matches(rest, s[1..])
  {
    if Matches([e] + rest, s) {
      var k := FirstPiece(e, rest, s);
      assert k == 1 && s[..1] == [s[0]];
    }
    if s != [] && ElementMatches(e, [s[0]]) && Matches(rest, s[1..]) {
      assert s[..1] == [s[0]];
      FitsFirst(e, rest, s, 1);
    }
  }

  lemma MatchesAnyRun(rest: seq<Element>, s: string)
    ensures Matches([AnyRun] + rest, s) <==> Matches(rest, s) || (s != [] && Matches([AnyRun] + rest, s[1..]))
  {
    if Matches([AnyRun] + rest, s) {
      var k := FirstPiece(AnyRun, rest, s);
      if k == 0 {
        assert s[0..] == s;
      } else {
        assert s[1..][k - 1..] == s[k..];
        FitsFirst(AnyRun, rest, s[1..], k - 1);
      }
    }
    if Matches(rest, s) {
      assert s[0..] == s;
      FitsFirst(AnyRun, rest, s, 0);
    } else if s != [] && Matches([AnyRun] + rest, s[1..]) {
      var k := FirstPiece(AnyRun, rest, s[1..]);
      assert s[1..][k..] == s[k + 1..];
      FitsFirst(AnyRun, rest, s, k + 1);
    }
  }

  // ----- The matcher ----------------------------------------------------------

  method GlobMatch(p: string, s: string) returns (matches: bool)
    ensures matches == Matches(Parse(p), s)
    decreases |p|, |s|
  {
    hide Matches, ElementMatches;
    if p == [] {
      MatchesNothing(s);
      return s == [];
    }
    if p[0] == '*' && |p| > 1 && p[1] == '*' {
      MatchesAnyRun(Parse(p[2..]), s);
      matches := GlobMatch(p[2..], s);
      if matches {
        return true;
      }
      if s != [] {
        matches := GlobMatch(p, s[1..]);
        return;
      }
      return false;
    }
    if p[0] == '*' {
      matches := MatchNameRun(p, s);
      return;
    }
    if p[0] == '?' && s != [] && s[0] != '/' {
      OneCharMatches(s);
      MatchesOne(OneChar, Parse(p[1..]), s);
      matches := GlobMatch(p[1..], s[1..]);
      return;
    }
    if p[0] == '[' {
      matches := MatchClass(p, s);
      return;
    }
    if p[0] == '?' {
      // no character, or a slash: the comparison below fails
      OneCharMatches(s);
      MatchesOne(OneChar, Parse(p[1..]), s);
    } else {
      LiteralMatches(p[0], s);
      MatchesOne(Literal(p[0]), Parse(p[1..]), s);
    }
    if s != [] && p[0] == s[0] {
      matches := GlobMatch(p[1..], s[1..]);
      return;
    }
    return false;
  }

  lemma OneCharMatches(s: string)
    ensures s != [] ==> (ElementMatches(OneChar, [s[0]]) <==> s[0] != '/')
  {
  }

  lemma LiteralMatches(c: char, s: string)
    ensures s != [] ==> (ElementMatches(Literal(c), [s[0]]) <==> c == s[0])
  {
  }

  /** A single star tries every run up to the next slash. */
  method MatchNameRun(p: string, s: string) returns (matches: bool)
    requires p != [] && p[0] == '*' && !(|p| > 1 && p[1] == '*')
    ensures matches == Matches(Parse(p), s)
    decreases |p|, |s|, 0
  {
    hide Matches, ClassEnd;
    var i := 0;
    ghost var rest := Parse(p[1..]);
    while i < |s| && s[i] != '/'
      invariant i <= |s|
      invariant forall j :: 0 <= j < i ==> s[j] != '/' && !Matches(rest, s[j..])
    {
      matches := GlobMatch(p[1..], s[i..]);
      if matches {
        FitsFirst(NameRun, rest, s, i);
        return;
      }
      i := i + 1;
    }
    matches := GlobMatch(p[1..], s[i..]);
    if matches {
      FitsFirst(NameRun, rest, s, i);
    } else {
      NameRunFails(rest, s, i);
    }
  }

  lemma NameRunFails(rest: seq<Element>, s: string, i: nat)
    requires i <= |s| && (i < |s| ==> s[i] == '/')
    requires forall j :: 0 <= j <= i ==> !Matches(rest, s[j..])
    ensures !Matches([NameRun] + rest, s)
  {
    forall k | i < k <= |s| ensures !ElementMatches(NameRun, s[..k]) {
      assert s[..k][i] == '/';
    }
    if Matches([NameRun] + rest, s) {
      var k := FirstPiece(NameRun, rest, s);
    }
  }

  /** A class, or a bracket that is never closed and stands for itself. */
  method MatchClass(p: string, s: string) returns (matches: bool)
    requires p != [] && p[0] == '['
    ensures matches == Matches(Parse(p), s)
    decreases |p|, |s|, 0
  {
    hide Matches;
    var end := 1;
    if end < |p| && (p[end] == ']' || p[end] == '-') {
      end := end + 1;
    }
    while end < |p| && p[end] != ']'
      invariant 1 <= end <= |p| && FindBracket(p, end) == ClassEnd(p)
    {
      end := end + 1;
    }
    if end < |p| {
      ghost var e := OneOf(p[1..end]);
      MatchesOne(e, Parse(p[end + 1..]), s);
      if s == [] {
        return false;
      }
      matches := ClassMatch(s[0], p[1..end]);
      if matches {
        matches := GlobMatch(p[end + 1..], s[1..]);
      }
    } else {
      MatchesOne(Literal('['), Parse(p[1..]), s);
      if s != [] && s[0] == '[' {
        matches := GlobMatch(p[1..], s[1..]);
        return;
      }
      return false;
    }
  }

  /** The part of a string a C string function sees. */
  function UpToNul(s: string): (r: string)
    ensures r <= s && '\0' !in r && (|r| < |s| ==> s[|r|] == '\0')
  {
    if s == [] || s[0] == '\0' then [] else [s[0]] + UpToNul(s[1..])
  }

  /** The public entry hands both strings over as C strings. */
  method Match(pattern: string, s: string) returns (matches: bool)
    ensures matches == Matches(Parse(UpToNul(pattern)), UpToNul(s))
  {
    matches := GlobMatch(UpToNul(pattern), UpToNul(s));
  }

  // ----- A bracket right after the negation -----------------------------------

  /** Where the class would end if a bracket or dash right after the opener or its `!` stood for itself. */
  function CommentedEnd(p: string): nat
    requires p != []
  {
    var first := if |p| > 1 && p[1] == '!' then 2 else 1;
    FindBracket(p, if |p| > first && (p[first] == ']' || p[first] == '-') then first + 1 else first)
  }

  /** The class ends where the comment beside the code promises exactly when the pattern does not begin with `[!]`. */
  lemma ClassEndsAsCommentedExactly(p: string)
    requires p != [] && p[0] == '['
    ensures ClassEnd(p) == CommentedEnd(p) <==> !("[!]" <= p)
  {
    if |p| > 1 && p[1] == '!' {
      assert FindBracket(p, 1) == FindBracket(p, 2);
      assert "[!]" <= p <==> |p| > 2 && p[2] == ']';
    }
  }

  /** In a closed class a bracket never follows the negation, so it is never taken for itself there. */
  lemma NegationIsNeverFollowedByBracket(p: string)
    requires p != [] && p[0] == '[' && ClassEnd(p) < |p|
    ensures var body := p[1..ClassEnd(p)]; |body| > 1 && body[0] == '!' ==> body[1] != ']'
  {
    if |p| > 1 && p[1] == '!' {
      assert FindBracket(p, 1) == FindBracket(p, 2);
    }
  }

  /** `[!]` is a complete class with nothing in it: it accepts any one character, and the pattern goes on behind it. */
  lemma EmptyNegatedClassAcceptsAll(rest: string, s: string)
    ensures Matches(Parse("[!]" + rest), s) <==> s != [] && Matches(Parse(rest), s[1..])
  {
    var p := "[!]" + rest;
    assert FindBracket(p, 1) == FindBracket(p, 2) == 2;
    assert p[1..2] == "!" && p[3..] == rest;
    assert "!"[1..] == [] && ClassItems([]) == [];
    MatchesOne(OneOf("!"), Parse(rest), s);
    if s != [] {
      assert InClass(s[0], "!");
    }
  }
}
