/** The glob language, sign by sign. */
module GlobLaws {
  import opened Glob

  ghost predicate PatternMatches(p: string, s: string) {
    Matches(Parse(p), s)
  }

  lemma EmptyPattern(s: string)
    ensures PatternMatches([], s) <==> s == []
  {
    MatchesNothing(s);
  }

  /** A character that is no sign stands for itself. */
  lemma LiteralPattern(c: char, rest: string, s: string)
    requires c !in {'*', '?', '['}
    ensures PatternMatches([c] + rest, s) <==> s != [] && s[0] == c && PatternMatches(rest, s[1..])
  {
    assert ([c] + rest)[1..] == rest;
    assert Parse([c] + rest) == [Literal(c)] + Parse(rest);
    MatchesOne(Literal(c), Parse(rest), s);
    hide Parse, Matches;
  }

  /** A question mark takes one character, but no slash. */
  lemma QuestionPattern(rest: string, s: string)
    ensures PatternMatches(['?'] + rest, s) <==> s != [] && s[0] != '/' && PatternMatches(rest, s[1..])
  {
    assert (['?'] + rest)[1..] == rest;
    assert Parse(['?'] + rest) == [OneChar] + Parse(rest);
    MatchesOne(OneChar, Parse(rest), s);
    hide Parse, Matches;
  }

  /** A star takes any run of characters without a slash. */
  lemma StarPattern(rest: string, s: string)
    requires rest == [] || rest[0] != '*'
    ensures PatternMatches(['*'] + rest, s) <==>
            exists k :: 0 <= k <= |s| && '/' !in s[..k] && PatternMatches(rest, s[k..])
  {
    StarParsed(rest);
    hide Parse, Matches;
    if PatternMatches(['*'] + rest, s) {
      var k := FirstPiece(NameRun, Parse(rest), s);
      assert '/' !in s[..k] && PatternMatches(rest, s[k..]);
    }
    if k :| 0 <= k <= |s| && '/' !in s[..k] && PatternMatches(rest, s[k..]) {
      FitsFirst(NameRun, Parse(rest), s, k);
    }
  }

  lemma StarParsed(rest: string)
    requires rest == [] || rest[0] != '*'
    ensures Parse(['*'] + rest) == [NameRun] + Parse(rest)
  {
    assert (['*'] + rest)[1..] == rest;
    assert rest != [] ==> (['*'] + rest)[1] == rest[0];
  }

  /** Two stars take any run of characters. */
  lemma DoubleStarPattern(rest: string, s: string)
    ensures PatternMatches(['*', '*'] + rest, s) <==> exists k :: 0 <= k <= |s| && PatternMatches(rest, s[k..])
  {
    assert (['*', '*'] + rest)[2..] == rest;
    assert Parse(['*', '*'] + rest) == [AnyRun] + Parse(rest);
    hide Parse, Matches;
    if PatternMatches(['*', '*'] + rest, s) {
      var k := FirstPiece(AnyRun, Parse(rest), s);
      assert PatternMatches(rest, s[k..]);
    }
    if k :| 0 <= k <= |s| && PatternMatches(rest, s[k..]) {
      FitsFirst(AnyRun, Parse(rest), s, k);
    }
  }

  // ----- Classes --------------------------------------------------------------

  /** Characters without a meaning of their own in a class. */
  predicate Plain(cs: string) {
    cs != [] && cs[0] != '!' && forall i :: 0 <= i < |cs| ==> cs[i] !in {']', '-'}
  }

  lemma {:induction false} BracketAt(p: string, i: nat, e: nat)
    requires i <= e < |p| && p[e] == ']' && forall j :: i <= j < e ==> p[j] != ']'
    ensures FindBracket(p, i) == e
    decreases e - i
  {
    if i < e {
      BracketAt(p, i + 1, e);
    }
  }

  /** A class that holds no bracket is read as one element. */
  lemma ClassParsed(body: string, rest: string)
    requires body != [] && body[0] != '-' && ']' !in body
    ensures Parse(['['] + body + [']'] + rest) == [OneOf(body)] + Parse(rest)
  {
    var p, e := ['['] + body + [']'] + rest, 1 + |body|;
    assert forall j :: 1 <= j < e ==> p[j] == body[j - 1];
    BracketAt(p, 1, e);
    assert ClassEnd(p) == e;
    assert p[1..e] == body && p[e + 1..] == rest;
    hide ClassEnd, FindBracket;
  }

  lemma {:induction false} PlainItems(cs: string, c: char)
    requires forall i :: 0 <= i < |cs| ==> cs[i] !in {']', '-'}
    ensures HasItem(Items(cs), c) <==> c in cs
  {
    if cs != [] {
      PlainItems(cs[1..], c);
      HasItemFirst(Single(cs[0]), Items(cs[1..]), c);
      assert cs == [cs[0]] + cs[1..];
    }
    hide HasItem;
  }

  /** A class of plain characters takes one of them, and behind `!` one of the others. */
  lemma ClassPattern(cs: string, rest: string, s: string)
    requires Plain(cs)
    ensures PatternMatches(['['] + cs + [']'] + rest, s) <==> s != [] && s[0] in cs && PatternMatches(rest, s[1..])
    ensures PatternMatches(['['] + (['!'] + cs) + [']'] + rest, s) <==>
            s != [] && s[0] !in cs && PatternMatches(rest, s[1..])
  {
    var negated := ['!'] + cs;
    assert negated[1..] == cs;
    ClassParsed(cs, rest);
    ClassParsed(negated, rest);
    MatchesOne(OneOf(cs), Parse(rest), s);
    MatchesOne(OneOf(negated), Parse(rest), s);
    hide Parse, Matches, HasItem;
    if s != [] {
      PlainItems(cs, s[0]);
    }
    hide Items;
  }

  /** A range takes one character between its ends. */
  lemma RangePattern(lo: char, hi: char, rest: string, s: string)
    requires lo !in {'!', ']', '-'} && hi != ']'
    ensures PatternMatches(['['] + [lo, '-', hi] + [']'] + rest, s) <==>
            s != [] && lo <= s[0] <= hi && PatternMatches(rest, s[1..])
  {
    var body := [lo, '-', hi];
    ClassParsed(body, rest);
    MatchesOne(OneOf(body), Parse(rest), s);
    hide Parse, Matches;
    if s != [] {
      assert body[3..] == [];
      assert Items(body) == [Range(lo, hi)] + Items([]);
      HasItemFirst(Range(lo, hi), Items([]), s[0]);
    }
  }

  /** A bracket that is never closed stands for itself. */
  lemma UnclosedBracketPattern(rest: string, s: string)
    requires ']' !in rest
    ensures PatternMatches(['['] + rest, s) <==> s != [] && s[0] == '[' && PatternMatches(rest, s[1..])
  {
    var p := ['['] + rest;
    assert p[1..] == rest;
    assert forall j :: 1 <= j < |p| ==> p[j] == rest[j - 1];
    assert Parse(p) == [Literal('[')] + Parse(rest);
    MatchesOne(Literal('['), Parse(rest), s);
    hide Parse, Matches;
  }
}
