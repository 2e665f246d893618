/** Cutting a rendered template into `<...>` and `[...]` markers and the text between them. */
module MarkerLexer {

  datatype Kind = Text | Marker

  datatype Segment = Segment(kind: Kind, value: string)

  predicate IsOpener(c: char) {
    c == '<' || c == '['
  }

  predicate IsCloser(opener: char, c: char) {
    (opener == '<' && c == '>') || (opener == '[' && c == ']')
  }

  /** The first position from `i` on that opens a marker, or the end. */
  function NextOpener(s: string, i: nat): (r: nat)
    requires i <= |s|
    ensures i <= r <= |s| && (r < |s| ==> IsOpener(s[r]))
    ensures forall j :: i <= j < r ==> !IsOpener(s[j])
    decreases |s| - i
  {
    if i == |s| || IsOpener(s[i]) then i else NextOpener(s, i + 1)
  }

  /** The first position from `i` on that closes a marker opened by `opener`, or the end. */
  function NextCloser(s: string, i: nat, opener: char): (r: nat)
    requires i <= |s|
    ensures i <= r <= |s| && (r < |s| ==> IsCloser(opener, s[r]))
    ensures forall j :: i <= j < r ==> !IsCloser(opener, s[j])
    decreases |s| - i
  {
    if i == |s| || IsCloser(opener, s[i]) then i else NextCloser(s, i + 1, opener)
  }

  function Lex(s: string): seq<Segment>
    decreases |s|
  {
    if s == [] then []
    else if IsOpener(s[0]) then
      var e := NextCloser(s, 1, s[0]);
      if e == |s| then [Segment(Text, s)] else [Segment(Marker, s[..e + 1])] + Lex(s[e + 1..])
    else
      var p := NextOpener(s, 0);
      [Segment(Text, s[..p])] + Lex(s[p..])
  }

  /** The scanning loop with its one-character mode. */
  method SegmentizeMarkers(text: string) returns (segments: seq<Segment>)
    ensures segments == Lex(text)
  {
    hide Lex;
    segments := [];
    assert text[0..] == text;
    var inMarker, opener, lastBorder := false, '\0', 0;
    for i := 0 to |text|
      invariant lastBorder <= i
      invariant segments + Lex(text[lastBorder..]) == Lex(text)
      invariant !inMarker ==> forall j :: lastBorder <= j < i ==> !IsOpener(text[j])
      invariant inMarker ==> lastBorder < i && text[lastBorder] == opener && IsOpener(opener)
      invariant inMarker ==> forall j :: lastBorder < j < i ==> !IsCloser(opener, text[j])
    {
      if !inMarker && IsOpener(text[i]) {
        if lastBorder < i {
          LexText(text, lastBorder, i);
          segments := segments + [Segment(Text, text[lastBorder..i])];
        }
        lastBorder, inMarker, opener := i, true, text[i];
      } else if inMarker && IsCloser(opener, text[i]) {
        LexMarker(text, lastBorder, i);
        segments := segments + [Segment(Marker, text[lastBorder..i + 1])];
        lastBorder, inMarker, opener := i + 1, false, '\0';
      }
    }
    if lastBorder < |text| {
      LexRest(text, lastBorder);
      segments := segments + [Segment(Text, text[lastBorder..])];
    } else {
      LexNothing();
      assert text[lastBorder..] == [];
    }
  }

  lemma LexNothing()
    ensures Lex([]) == []
  {
  }

  lemma LexText(s: string, b: nat, i: nat)
    requires b < i < |s| && IsOpener(s[i])
    requires forall j :: b <= j < i ==> !IsOpener(s[j])
    ensures Lex(s[b..]) == [Segment(Text, s[b..i])] + Lex(s[i..])
  {
    var t := s[b..];
    var p := NextOpener(t, 0);
    assert forall j :: 0 <= j < i - b ==> t[j] == s[b + j];
    assert t[i - b] == s[i];
    assert p == i - b;
    assert t[..p] == s[b..i] && t[p..] == s[i..];
  }

  lemma LexMarker(s: string, b: nat, i: nat)
    requires b < i < |s| && IsOpener(s[b]) && IsCloser(s[b], s[i])
    requires forall j :: b < j < i ==> !IsCloser(s[b], s[j])
    ensures Lex(s[b..]) == [Segment(Marker, s[b..i + 1])] + Lex(s[i + 1..])
  {
    var t := s[b..];
    var e := NextCloser(t, 1, t[0]);
    assert forall j :: 0 <= j < i - b ==> t[j] == s[b + j];
    assert t[i - b] == s[i];
    assert e == i - b;
    assert t[..e + 1] == s[b..i + 1] && t[e + 1..] == s[i + 1..];
  }

  lemma LexRest(s: string, b: nat)
    requires b < |s|
    requires if IsOpener(s[b]) then forall j :: b < j < |s| ==> !IsCloser(s[b], s[j])
             else forall j :: b <= j < |s| ==> !IsOpener(s[j])
    ensures Lex(s[b..]) == [Segment(Text, s[b..])]
  {
    var t := s[b..];
    assert forall j :: 0 <= j < |t| ==> t[j] == s[b + j];
    if !IsOpener(t[0]) {
      assert NextOpener(t, 0) == |t|;
      assert t[..|t|] == t && t[|t|..] == [];
    }
  }

  // ----- Lexing and concatenation are inverse ---------------------------------

  function Concat(segments: seq<Segment>): string {
    if segments == [] then [] else segments[0].value + Concat(segments[1..])
  }

  /** Ends at the first closer that matches its opener. */
  predicate IsMarkerText(v: string) {
    |v| >= 2 && IsOpener(v[0]) && IsCloser(v[0], v[|v| - 1]) && forall j :: 1 <= j < |v| - 1 ==> !IsCloser(v[0], v[j])
  }

  predicate IsPlainText(v: string) {
    v != [] && forall j :: 0 <= j < |v| ==> !IsOpener(v[j])
  }

  predicate IsUnclosed(v: string) {
    v != [] && IsOpener(v[0]) && forall j :: 1 <= j < |v| ==> !IsCloser(v[0], v[j])
  }

  /** Markers end at their first closer, plain text stops only at an opener, and only the last segment may be unclosed. */
  predicate WellFormed(segments: seq<Segment>) {
    segments == [] ||
    (var v, rest := segments[0].value, segments[1..];
     && WellFormed(rest)
     && match segments[0].kind
        case Marker => IsMarkerText(v)
        case Text =>
          || (IsPlainText(v) && (rest != [] ==> rest[0].value != [] && IsOpener(rest[0].value[0])))
          || (IsUnclosed(v) && rest == []))
  }

  lemma {:induction false} LexIsWellFormed(s: string)
    ensures WellFormed(Lex(s)) && Concat(Lex(s)) == s
    decreases |s|
  {
    if s != [] {
      var v := Lex(s)[0].value;
      LexStep(s);
      LexIsWellFormed(s[|v|..]);
      LexStartsAt(s[|v|..]);
    }
  }

  /** The first segment is well formed and the lexer goes on behind it. */
  lemma LexStep(s: string)
    requires s != []
    ensures var v := Lex(s)[0].value;
            && 0 < |v| <= |s| && v == s[..|v|] && Lex(s) == [Lex(s)[0]] + Lex(s[|v|..])
            && (if Lex(s)[0].kind == Marker then IsMarkerText(v)
                else (IsPlainText(v) && (|v| < |s| ==> IsOpener(s[|v|]))) || (IsUnclosed(v) && |v| == |s|))
  {
    var v := Lex(s)[0].value;
    if IsOpener(s[0]) {
      var e := NextCloser(s, 1, s[0]);
      if e == |s| {
        assert s[|s|..] == [] && s[..|s|] == s;
      } else {
        assert v == s[..e + 1];
      }
    } else {
      assert v == s[..NextOpener(s, 0)];
    }
  }

  lemma LexStartsAt(s: string)
    ensures s != [] ==> Lex(s) != [] && Lex(s)[0].value != [] && Lex(s)[0].value[0] == s[0]
  {
  }

  lemma {:induction false} ConcatIsLexed(segments: seq<Segment>)
    requires WellFormed(segments)
    ensures Lex(Concat(segments)) == segments
    decreases |segments|
  {
    if segments != [] {
      ConcatIsLexed(segments[1..]);
      FirstIsLexed(segments);
      assert segments == [segments[0]] + segments[1..];
    }
  }

  lemma FirstIsLexed(segments: seq<Segment>)
    requires WellFormed(segments) && segments != []
    ensures Lex(Concat(segments)) == [segments[0]] + Lex(Concat(segments[1..]))
  {
    hide Lex;
    var v, rest := segments[0].value, Concat(segments[1..]);
    var s := v + rest;
    assert s[..|v|] == v && s[|v|..] == rest && s[0..] == s && s[0..|v|] == v;
    assert forall j :: 0 <= j < |v| ==> s[j] == v[j];
    if segments[0].kind == Marker {
      LexMarker(s, 0, |v| - 1);
    } else if segments[1..] == [] {
      LexNothing();
      LexRest(s, 0);
      assert s == v;
    } else {
      assert s[|v|] == rest[0] == segments[1..][0].value[0];
      LexText(s, 0, |v|);
    }
  }

  /** The lexer returns exactly the well-formed segment list whose concatenation is the text. */
  lemma LexExactly(s: string, segments: seq<Segment>)
    ensures Lex(s) == segments <==> Concat(segments) == s && WellFormed(segments)
  {
    LexIsWellFormed(s);
    if Concat(segments) == s && WellFormed(segments) {
      ConcatIsLexed(segments);
    }
  }

  /** The two kinds of markers. */
  lemma DelimitersSpelled(c: char, d: char)
    ensures IsOpener(c) <==> c in {'<', '['}
    ensures IsCloser(c, d) <==> (c == '<' && d == '>') || (c == '[' && d == ']')
  {
  }

  /** Text, an angle marker that holds a bracket, a bracket marker, and text that opens and never closes. */
  lemma MixedIsLexed()
    ensures Lex(['a', '<', '[', '>', '[', ']', '<', ']'])
         == [Segment(Text, ['a']), Segment(Marker, ['<', '[', '>']), Segment(Marker, ['[', ']']), Segment(Text, ['<', ']'])]
  {
    var a, b, c, d := Segment(Text, ['a']), Segment(Marker, ['<', '[', '>']), Segment(Marker, ['[', ']']), Segment(Text, ['<', ']']);
    assert d.value[0] == '<' && IsUnclosed(d.value);
    hide WellFormed, Lex, Concat;
    var l3 := [d] + [];
    var l2 := [c] + l3;
    var l1 := [b] + l2;
    var l0 := [a] + l1;
    NothingIsWellFormed();
    WellFormedFrom(d, []);
    WellFormedFrom(c, l3);
    WellFormedFrom(b, l2);
    WellFormedFrom(a, l1);
    hide IsPlainText, IsMarkerText, IsUnclosed;
    ConcatIsLexed(l0);
    ConcatFrom(d, []);
    ConcatFrom(c, l3);
    ConcatFrom(b, l2);
    ConcatFrom(a, l1);
    assert Concat(l0) == ['a', '<', '[', '>', '[', ']', '<', ']'];
    assert l0 == [a, b, c, d];
  }

  lemma NothingIsWellFormed()
    ensures WellFormed([])
  {
  }

  lemma WellFormedFrom(s: Segment, rest: seq<Segment>)
    requires WellFormed(rest)
    requires if s.kind == Marker then IsMarkerText(s.value)
             else (IsPlainText(s.value) && (rest != [] ==> rest[0].value != [] && IsOpener(rest[0].value[0])))
                  || (IsUnclosed(s.value) && rest == [])
    ensures WellFormed([s] + rest)
  {
    assert ([s] + rest)[1..] == rest;
    hide IsPlainText, IsMarkerText, IsUnclosed;
  }

  lemma ConcatFrom(s: Segment, rest: seq<Segment>)
    ensures Concat([s] + rest) == s.value + Concat(rest)
    ensures Concat([]) == []
  {
    assert ([s] + rest)[1..] == rest;
  }
}
