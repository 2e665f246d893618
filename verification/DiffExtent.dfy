/** How much of two templates their split shares: nothing that the ends of the differing parts still have in common. */
module DiffExtent {
  import opened MarkerLexer
  import opened DiffSplit

  // ----- Characters -----------------------------------------------------------

  /** The remainders do not begin with the same character, nor end with one, where text was allowed to move. */
  predicate NoCommonEnds(a: string, b: string, textPrefix: bool, textSuffix: bool) {
    a != [] && b != [] ==>
      && (textPrefix ==> a[0] != b[0])
      && (textSuffix ==> a[|a| - 1] != b[|b| - 1])
  }

  lemma TrimmedEnds(prefix: string, suffix: string, a: string, b: string, textPrefix: bool, textSuffix: bool)
    ensures
      var r := TrimCommon(prefix, suffix, a, b, textPrefix, textSuffix);
      && NoCommonEnds(r.left, r.right, textPrefix, textSuffix)
      && (!textPrefix ==> r.prefix == prefix) && (!textSuffix ==> r.suffix == suffix)
  {
    hide SuffixLength, PrefixLength, NoCommonEnds;
    var n := SuffixLength(a, b, textSuffix);
    var a', b' := a[..|a| - n], b[..|b| - n];
    var m := PrefixLength(a', b', textPrefix);
    SuffixStops(a, b, textSuffix);
    PrefixStops(a', b', textPrefix);
    CutEnds(a, b, m, n, textPrefix, textSuffix);
    NothingAdded(prefix, a);
    NothingAdded(suffix, a);
  }

  lemma NothingAdded(s: string, a: string)
    ensures s + a[..0] == s && a[|a| - 0..] + s == s
  {
  }

  /** Both sides cut where the search for common ends stopped. */
  lemma CutEnds(a: string, b: string, m: nat, n: nat, textPrefix: bool, textSuffix: bool)
    requires m + n <= |a| && m + n <= |b|
    requires textPrefix && m + n < |a| && m + n < |b| ==> a[..|a| - n][m] != b[..|b| - n][m]
    requires textSuffix && n < |a| && n < |b| ==> a[|a| - 1 - n] != b[|b| - 1 - n]
    ensures NoCommonEnds(a[m..|a| - n], b[m..|b| - n], textPrefix, textSuffix)
  {
    EndsOf(a, m, n);
    EndsOf(b, m, n);
  }

  /** What lies between `m` characters of the front and `n` of the end. */
  lemma EndsOf(a: string, m: nat, n: nat)
    requires m + n <= |a|
    ensures var c := a[m..|a| - n]; c != [] ==> c[0] == a[..|a| - n][m] && c[|c| - 1] == a[|a| - 1 - n]
  {
  }

  lemma SuffixStops(a: string, b: string, textSuffix: bool)
    ensures var n := SuffixLength(a, b, textSuffix);
            if textSuffix then n < |a| && n < |b| ==> a[|a| - 1 - n] != b[|b| - 1 - n] else n == 0
  {
    hide CommonSuffix;
  }

  lemma PrefixStops(a: string, b: string, textPrefix: bool)
    ensures var m := PrefixLength(a, b, textPrefix);
            if textPrefix then m < |a| && m < |b| ==> a[m] != b[m] else m == 0
  {
    hide CommonPrefix;
  }

  // ----- Segments -------------------------------------------------------------

  /** When the loop has stopped, one segment is left on a side, or both ends differ. */
  lemma {:induction false} NarrowStops(w: Window, l: seq<Segment>, r: seq<Segment>)
    requires InRange(w, l, r)
    ensures
      var w' := Narrow(w, l, r);
      w'.ls == w'.le || w'.rs == w'.re || (l[w'.ls] != r[w'.rs] && l[w'.le] != r[w'.re])
    decreases w.le - w.ls
  {
    if w.ls != w.le && w.rs != w.re {
      var w1 := MatchFront(w, l, r);
      var w2 := MatchBack(w1, l, r);
      if l[w.ls] == r[w.rs] || l[w1.le] == r[w1.re] {
        NarrowStops(w2, l, r);
      }
    }
  }

  /** The window the characters are taken from. */
  function Final(left: string, right: string): (w: Window)
    requires left != [] && right != []
    ensures InRange(w, Lex(left), Lex(right))
  {
    FollowUp(Matched(left, right), Lex(left), Lex(right))
  }

  /** Where segments are left on both sides, the first ones differ and the last ones too, but for two equal texts. */
  lemma RemainingSegmentsDiffer(left: string, right: string)
    requires left != [] && right != []
    ensures
      var w, l, r := Final(left, right), Lex(left), Lex(right);
      w.leftDone || w.rightDone
      || (l[w.ls] != r[w.rs] && l[w.le] != r[w.re])
      || (w.ls == w.le && w.rs == w.re && l[w.ls] == r[w.rs] && l[w.ls].kind == Text)
  {
    var l, r := Lex(left), Lex(right);
    LexStartsAt(left);
    LexStartsAt(right);
    NarrowStops(FirstWindow(l, r), l, r);
    hide Lex, Narrow;
  }

  /**
   The differing parts share nothing at their ends: where the first unmatched segments of both sides are text they do
   not begin with the same character, and where the last ones are, they do not end with the same character.
   */
  lemma PartsHaveNoCommonEnds(left: string, right: string)
    requires left != [] && right != []
    ensures
      var w, l, r, d := Final(left, right), Lex(left), Lex(right), Diff(left, right);
      NoCommonEnds(d.left, d.right, l[w.ls].kind == Text && r[w.rs].kind == Text, l[w.le].kind == Text && r[w.re].kind == Text)
  {
    var w, l, r := Final(left, right), Lex(left), Lex(right);
    TrimmedEnds(w.prefix, w.suffix, Rest(l, w.ls, w.le, w.leftDone), Rest(r, w.rs, w.re, w.rightDone),
                r[w.rs].kind == Text && l[w.ls].kind == Text, l[w.le].kind == Text && r[w.re].kind == Text);
    hide Lex, Matched, FollowUp, Rest, TrimCommon;
  }

  // ----- A difference between a shared front and a shared end ------------------

  /** The window after `i` segments of the front and `j` of the end are matched. */
  function Reached(p: seq<Segment>, a: seq<Segment>, b: seq<Segment>, s: seq<Segment>, i: nat, j: nat): Window
    requires i <= |p| && j <= |s| && a != [] && b != []
  {
    Window(i, |p| + |a| + |s| - 1 - j, i, |p| + |b| + |s| - 1 - j, Concat(p[..i]), Concat(s[|s| - j..]), false, false)
  }

  /** The parts between differ at both ends. */
  predicate DifferAtEnds(a: seq<Segment>, b: seq<Segment>) {
    a != [] && b != [] && a[0] != b[0] && a[|a| - 1] != b[|b| - 1]
  }

  lemma FrontReached(p: seq<Segment>, a: seq<Segment>, b: seq<Segment>, s: seq<Segment>, i: nat, j: nat)
    requires i <= |p| && j <= |s| && DifferAtEnds(a, b)
    requires |p| + |a| + |s| - 1 - j != i && |p| + |b| + |s| - 1 - j != i
    ensures
      var w := Reached(p, a, b, s, i, j);
      MatchFront(w, p + a + s, p + b + s) == if i < |p| then Reached(p, a, b, s, i + 1, j) else w
    ensures (p + a + s)[i] == (p + b + s)[i] <==> i < |p|
  {
    if i < |p| {
      assert p[..i + 1] == p[..i] + [p[i]];
      ConcatAppend(p[..i], [p[i]]);
      ConcatOne(p[i]);
    }
  }

  lemma BackReached(p: seq<Segment>, a: seq<Segment>, b: seq<Segment>, s: seq<Segment>, i: nat, j: nat)
    requires i <= |p| && j <= |s| && DifferAtEnds(a, b)
    ensures
      var w := Reached(p, a, b, s, i, j);
      MatchBack(w, p + a + s, p + b + s) == if j < |s| then Reached(p, a, b, s, i, j + 1) else w
    ensures (p + a + s)[|p| + |a| + |s| - 1 - j] == (p + b + s)[|p| + |b| + |s| - 1 - j] <==> j < |s|
  {
    FromEnd(p, a, s, j);
    FromEnd(p, b, s, j);
    if j < |s| {
      var k := |s| - j - 1;
      assert s[k..] == [s[k]] + s[k + 1..];
      ConcatAppend([s[k]], s[k + 1..]);
      ConcatOne(s[k]);
    }
    hide Concat;
  }

  lemma FromEnd(p: seq<Segment>, a: seq<Segment>, s: seq<Segment>, j: nat)
    requires j <= |s| && a != []
    ensures (p + a + s)[|p| + |a| + |s| - 1 - j] == if j < |s| then s[|s| - 1 - j] else a[|a| - 1]
  {
  }

  /** The loop matches all of the shared front and of the shared end, and stops there. */
  lemma {:induction false} NarrowReachesDifference(p: seq<Segment>, a: seq<Segment>, b: seq<Segment>, s: seq<Segment>, i: nat, j: nat)
    requires i <= |p| && j <= |s| && DifferAtEnds(a, b)
    ensures Narrow(Reached(p, a, b, s, i, j), p + a + s, p + b + s) == Reached(p, a, b, s, |p|, |s|)
    decreases |p| - i + |s| - j
  {
    var l, r, w := p + a + s, p + b + s, Reached(p, a, b, s, i, j);
    if w.ls != w.le && w.rs != w.re {
      var i' := if i < |p| then i + 1 else i;
      FrontReached(p, a, b, s, i, j);
      BackReached(p, a, b, s, i', j);
      if i < |p| || j < |s| {
        NarrowReachesDifference(p, a, b, s, i', if j < |s| then j + 1 else j);
      }
    }
    hide Concat, MatchFront, MatchBack;
  }

  lemma DifferenceStays(p: seq<Segment>, a: seq<Segment>, b: seq<Segment>, s: seq<Segment>)
    requires DifferAtEnds(a, b)
    ensures var w := Reached(p, a, b, s, |p|, |s|); FollowUp(w, p + a + s, p + b + s) == w
  {
  }

  lemma MiddleRest(p: seq<Segment>, a: seq<Segment>, s: seq<Segment>)
    requires a != []
    ensures Rest(p + a + s, |p|, |p| + |a| - 1, false) == Concat(a)
  {
    assert (p + a + s)[|p|..|p| + |a|] == a;
  }

  /** Two segment lists with the same front and end, differing in between, are split there, but for common characters. */
  lemma SharedSegmentsAreFound(p: seq<Segment>, a: seq<Segment>, b: seq<Segment>, s: seq<Segment>)
    requires WellFormed(p + a + s) && WellFormed(p + b + s) && DifferAtEnds(a, b)
    ensures
      var left, right := Concat(p + a + s), Concat(p + b + s);
      Diff(left, right) == Repair(TrimParts(Concat(p), Concat(s), a, b), left, right)
  {
    assert Whole(p, a, s) == p + a + s && Whole(p, b, s) == p + b + s;
    hide *;
    ConcatIsLexed(p + a + s);
    ConcatIsLexed(p + b + s);
    DifferenceIsFinal(p, a, b, s);
    FinishedAt(p, a, b, s);
    DiffByFinal(Concat(p + a + s), Concat(p + b + s));
  }

  lemma FinishedAt(p: seq<Segment>, a: seq<Segment>, b: seq<Segment>, s: seq<Segment>)
    requires DifferAtEnds(a, b)
    ensures InRange(Reached(p, a, b, s, |p|, |s|), Whole(p, a, s), Whole(p, b, s))
    ensures a != [] && b != []
    ensures Finish(Reached(p, a, b, s, |p|, |s|), Whole(p, a, s), Whole(p, b, s))
         == TrimParts(Concat(p), Concat(s), a, b)
  {
    assert a != [] && b != [];
    hide *;
    ReachedAll(p, a, b, s);
    MiddleOf(p, a, s);
    MiddleOf(p, b, s);
    FinishMiddle(Reached(p, a, b, s, |p|, |s|), Whole(p, a, s), Whole(p, b, s), a, b, |p|);
  }

  function Whole(p: seq<Segment>, a: seq<Segment>, s: seq<Segment>): seq<Segment> {
    p + a + s
  }

  /** From position `k` on `l` goes on with `a`. */
  predicate Middle(l: seq<Segment>, a: seq<Segment>, k: nat) {
    && a != [] && k + |a| <= |l| && Rest(l, k, k + |a| - 1, false) == Concat(a)
    && l[k] == a[0] && l[k + |a| - 1] == a[|a| - 1]
  }

  lemma MiddleOf(p: seq<Segment>, a: seq<Segment>, s: seq<Segment>)
    requires a != []
    ensures Middle(Whole(p, a, s), a, |p|)
  {
    MiddleRest(p, a, s);
    hide Rest, Concat;
  }

  /** The window leaves `n` and `m` segments from position `k` on. */
  predicate LeavesAt(w: Window, k: nat, n: nat, m: nat) {
    !w.leftDone && !w.rightDone && w.ls == k && w.rs == k && w.le + 1 == k + n && w.re + 1 == k + m
  }

  /** The texts of the parts, without common ends where text meets text. */
  function TrimParts(prefix: string, suffix: string, a: seq<Segment>, b: seq<Segment>): Split
    requires a != [] && b != []
  {
    var textPrefix := a[0].kind == Text && b[0].kind == Text;
    var textSuffix := a[|a| - 1].kind == Text && b[|b| - 1].kind == Text;
    TrimCommon(prefix, suffix, Concat(a), Concat(b), textPrefix, textSuffix)
  }

  lemma FinishMiddle(w: Window, l: seq<Segment>, r: seq<Segment>, a: seq<Segment>, b: seq<Segment>, k: nat)
    requires a != [] && b != [] && Middle(l, a, k) && Middle(r, b, k) && LeavesAt(w, k, |a|, |b|) && InRange(w, l, r)
    ensures Finish(w, l, r) == TrimParts(w.prefix, w.suffix, a, b)
  {
    hide TrimCommon, Rest, Concat;
  }

  lemma ReachedAll(p: seq<Segment>, a: seq<Segment>, b: seq<Segment>, s: seq<Segment>)
    requires DifferAtEnds(a, b)
    ensures a != [] && b != []
    ensures var w := Reached(p, a, b, s, |p|, |s|);
            LeavesAt(w, |p|, |a|, |b|) && w.prefix == Concat(p) && w.suffix == Concat(s)
    ensures InRange(Reached(p, a, b, s, |p|, |s|), Whole(p, a, s), Whole(p, b, s))
  {
    assert p[..|p|] == p && s[|s| - |s|..] == s;
    hide Concat;
  }

  lemma DiffByFinal(left: string, right: string)
    requires left != [] && right != []
    ensures Diff(left, right) == Repair(Finish(Final(left, right), Lex(left), Lex(right)), left, right)
  {
    hide Lex, Matched, FollowUp, Finish, Repair;
  }

  lemma DifferenceIsFinal(p: seq<Segment>, a: seq<Segment>, b: seq<Segment>, s: seq<Segment>)
    requires WellFormed(p + a + s) && WellFormed(p + b + s) && DifferAtEnds(a, b)
    ensures
      var left, right := Concat(p + a + s), Concat(p + b + s);
      left != [] && right != [] && Final(left, right) == Reached(p, a, b, s, |p|, |s|)
  {
    var l, r := p + a + s, p + b + s;
    ConcatIsLexed(l);
    ConcatIsLexed(r);
    NotEmptyText(l);
    NotEmptyText(r);
    NarrowReachesDifference(p, a, b, s, 0, 0);
    FirstReached(p, a, b, s);
    DifferenceStays(p, a, b, s);
    hide Lex, Narrow, FollowUp, Concat, WellFormed, Reached;
  }

  lemma FirstReached(p: seq<Segment>, a: seq<Segment>, b: seq<Segment>, s: seq<Segment>)
    requires a != [] && b != []
    ensures FirstWindow(p + a + s, p + b + s) == Reached(p, a, b, s, 0, 0)
  {
    assert p[..0] == [] && s[|s|..] == [];
  }

  lemma NotEmptyText(l: seq<Segment>)
    requires WellFormed(l) && l != []
    ensures Concat(l) != []
  {
    SegmentsNotEmpty(l, 0);
  }

  /** If the differing parts neither begin nor end with text on both sides, the split is exactly front, end, and parts. */
  lemma DifferenceIsFound(p: seq<Segment>, a: seq<Segment>, b: seq<Segment>, s: seq<Segment>)
    requires WellFormed(p + a + s) && WellFormed(p + b + s) && DifferAtEnds(a, b)
    requires !(a[0].kind == Text && b[0].kind == Text) && !(a[|a| - 1].kind == Text && b[|b| - 1].kind == Text)
    ensures Diff(Concat(p + a + s), Concat(p + b + s)) == Split(Concat(p), Concat(s), Concat(a), Concat(b))
  {
    SharedSegmentsAreFound(p, a, b, s);
    PartNotEmpty(p, a, s);
    PartNotEmpty(p, b, s);
    Untrimmed(Concat(p), Concat(s), Concat(a), Concat(b));
    hide Diff, TrimCommon, Concat, WellFormed;
  }

  lemma PartNotEmpty(p: seq<Segment>, a: seq<Segment>, s: seq<Segment>)
    requires WellFormed(p + a + s) && a != []
    ensures Concat(a) != []
  {
    SegmentsNotEmpty(p + a + s, |p|);
    assert (p + a + s)[|p|] == a[0];
  }

  lemma Untrimmed(prefix: string, suffix: string, a: string, b: string)
    ensures TrimCommon(prefix, suffix, a, b, false, false) == Split(prefix, suffix, a, b)
  {
    assert a[..|a| - 0] == a && b[..|b| - 0] == b;
    assert prefix + a[..0] == prefix && a[|a|..] + suffix == suffix && a[0..|a|] == a && b[0..|b|] == b;
  }

  /** Lists of markers: the split is exactly the shared markers in front and behind, and the markers between. */
  lemma MarkerDifferenceIsFound(p: seq<string>, a: seq<string>, b: seq<string>, s: seq<string>)
    requires forall x :: x in p + a + b + s ==> IsMarkerText(x)
    requires a != [] && b != [] && a[0] != b[0] && a[|a| - 1] != b[|b| - 1]
    ensures Diff(ConcatTexts(p + a + s), ConcatTexts(p + b + s))
         == Split(ConcatTexts(p), ConcatTexts(s), ConcatTexts(a), ConcatTexts(b))
  {
    MarkersOfThree(p, a, s);
    MarkersOfThree(p, b, s);
    assert forall x :: x in p + a + s ==> x in p + a + b + s;
    assert forall x :: x in p + b + s ==> x in p + a + b + s;
    MarkersWellFormed(p + a + s);
    MarkersWellFormed(p + b + s);
    MarkersWellFormed(p);
    MarkersWellFormed(a);
    MarkersWellFormed(b);
    MarkersWellFormed(s);
    hide WellFormed, ConcatTexts, Concat, Diff, IsMarkerText;
    DifferenceIsFound(Markers(p), Markers(a), Markers(b), Markers(s));
  }

  lemma MarkersOfThree(p: seq<string>, a: seq<string>, s: seq<string>)
    ensures Markers(p + a + s) == Markers(p) + Markers(a) + Markers(s)
  {
  }

  /** One text on each side is cut to its common ends, the end first. */
  lemma TextDifferenceIsFound(left: string, right: string)
    requires left != [] && right != [] && left != right
    requires forall i :: 0 <= i < |left| ==> !IsOpener(left[i])
    requires forall i :: 0 <= i < |right| ==> !IsOpener(right[i])
    ensures Diff(left, right) == Repair(TrimCommon([], [], left, right, true, true), left, right)
  {
    OneText(left);
    OneText(right);
    var a, b := [Segment(Text, left)], [Segment(Text, right)];
    assert [] + a + [] == a && [] + b + [] == b;
    SharedSegmentsAreFound([], a, b, []);
    ConcatOne(a[0]);
    ConcatOne(b[0]);
    assert Concat([]) == [];
    hide Diff, TrimCommon, Repair;
  }

  lemma OneText(s: string)
    requires s != [] && forall i :: 0 <= i < |s| ==> !IsOpener(s[i])
    ensures WellFormed([Segment(Text, s)])
  {
    assert NextOpener(s, 0) == |s|;
    assert s[..|s|] == s && s[|s|..] == [];
    assert Lex(s) == [Segment(Text, s)];
    LexIsWellFormed(s);
  }

  /** Two greetings are split after the word and the blank they share. */
  lemma GreetingIsSplit()
    ensures Diff("Hello world", "Hello there") == Split("Hello ", [], "world", "there")
  {
    var left, right := "Hello world", "Hello there";
    assert left[0] != right[6];
    TextDifferenceIsFound(left, right);
    SixInCommon(left, right);
    GreetingParts(left, right);
    hide *;
    TrimAt(left, right, 6);
    RepairKeeps(TrimCommon([], [], left, right, true, true), left, right);
  }

  lemma GreetingParts(left: string, right: string)
    requires left == "Hello world" && right == "Hello there"
    ensures left[..6] == "Hello " && left[6..] == "world" && right[6..] == "there"
  {
  }

  lemma RepairKeeps(r: Split, left: string, right: string)
    requires r.left != []
    ensures Repair(r, left, right) == r
  {
  }

  lemma TrimAt(a: string, b: string, m: nat)
    requires CommonSuffix(a, b, 0) == 0 && CommonPrefix(a, b, 0) == m
    ensures TrimCommon([], [], a, b, true, true) == Split(a[..m], [], a[m..], b[m..])
  {
    hide CommonPrefix, CommonSuffix;
    assert SuffixLength(a, b, true) == 0 && PrefixLength(a, b, true) == m;
    hide SuffixLength, PrefixLength;
    FrontOff(a, b, 0, m);
  }

  lemma FrontOff(a: string, b: string, n: nat, m: nat)
    requires SuffixLength(a, b, true) == n && PrefixLength(a, b, true) == m && n == 0
    ensures TrimCommon([], [], a, b, true, true) == Split(a[..m], [], a[m..], b[m..])
  {
    hide SuffixLength, PrefixLength;
    WholeSlices(a, n, m);
    WholeSlices(b, n, m);
  }

  lemma WholeSlices(a: string, n: nat, m: nat)
    requires m <= |a| && n == 0
    ensures a[..|a| - n] == a && a[|a| - n..] + [] == [] && a[m..|a| - n] == a[m..] && [] + a[..m] == a[..m]
  {
  }

  /** A repeated character counts as shared end before it counts as shared front. */
  lemma SharedEndComesFirst()
    ensures Diff("aa", "a") == Split([], "a", "a", [])
  {
    var left, right := "aa", "a";
    TextDifferenceIsFound(left, right);
    OneInCommon(left, right);
    hide *;
    TrimOneOff(left, right);
    RepairKeeps(TrimCommon([], [], left, right, true, true), left, right);
  }

  lemma OneInCommon(left: string, right: string)
    requires left == "aa" && right == "a"
    ensures SuffixLength(left, right, true) == 1
  {
    assert left[|left| - 1] == right[|right| - 1];
  }

  lemma TrimOneOff(left: string, right: string)
    requires left == "aa" && right == "a" && SuffixLength(left, right, true) == 1
    ensures TrimCommon([], [], left, right, true, true) == Split([], "a", "a", [])
  {
    hide SuffixLength, CommonPrefix;
    assert left[..1] == "a" && right[..0] == [];
    assert left[1..] + [] == "a";
    assert PrefixLength(left[..1], right[..0], true) == 0;
    assert [] + left[..1][..0] == [];
  }

  lemma SixInCommon(left: string, right: string)
    requires left == "Hello world" && right == "Hello there"
    ensures CommonPrefix(left, right, 0) == 6 && CommonSuffix(left, right, 0) == 0
  {
    var r := CommonPrefix(left, right, 0);
    assert left[6] != right[6];
    assert forall i :: 0 <= i < 6 ==> left[i] == right[i];
  }

  // ----- The repairs ----------------------------------------------------------

  /** A template compared with itself is all prefix. */
  lemma NoDifferenceIsAllPrefix(s: string)
    ensures Diff(s, s) == if s == [] then Split([], [], [], []) else Split(s, [], [], [])
  {
    if s != [] {
      DiffRebuildsExactly(s, s);
      SameIsFaithful(s);
      var r := Diff(s, s);
      assert |r.left| == |r.right|;
      SameSidesAreShared(s);
    }
  }

  lemma {:induction false} NarrowSame(w: Window, l: seq<Segment>)
    requires InRange(w, l, l) && w.ls == w.rs && w.le == w.re && w.leftDone == w.rightDone
    ensures var w' := Narrow(w, l, l); w'.ls == w'.rs && w'.le == w'.re && w'.leftDone == w'.rightDone && w'.ls == w'.le
    decreases w.le - w.ls
  {
    if w.ls != w.le {
      NarrowSame(MatchBack(MatchFront(w, l, l), l, l), l);
    }
  }

  lemma SameIsFaithful(s: string)
    requires s != []
    ensures Faithful(s, s)
  {
    LexStartsAt(s);
    NarrowSame(FirstWindow(Lex(s), Lex(s)), Lex(s));
    hide Lex, Narrow;
  }

  lemma SameSidesAreShared(s: string)
    requires s != []
    ensures Diff(s, s) == Split(s, [], [], [])
  {
    var l := Lex(s);
    LexStartsAt(s);
    NarrowSame(FirstWindow(l, l), l);
    var w := Final(s, s);
    assert w.ls == w.le == w.rs == w.re && w.leftDone == w.rightDone;
    SameTrimmed(w.prefix, w.suffix, Rest(l, w.ls, w.le, w.leftDone), l[w.ls].kind == Text);
    if !w.leftDone {
      assert l[w.ls].kind == Text;
    } else {
      RestLast(l, w.ls);
    }
    hide Lex, Matched, Rest, TrimCommon;
  }

  lemma SameTrimmed(prefix: string, suffix: string, a: string, text: bool)
    ensures text || a == [] ==> TrimCommon(prefix, suffix, a, a, text, text).left == [] && TrimCommon(prefix, suffix, a, a, text, text).right == []
  {
    if text {
      AllInCommon(a, 0);
    }
  }

  lemma {:induction false} AllInCommon(a: string, n: nat)
    requires n <= |a|
    ensures CommonSuffix(a, a, n) == |a|
    decreases |a| - n
  {
    if n < |a| {
      AllInCommon(a, n + 1);
    }
  }

  /** A left side that starts the right one and keeps nothing of its own is reported as the prefix, whole. */
  lemma ExtensionIsAllPrefix(left: string, right: string)
    requires left != [] && left <= right && left != right && Diff(left, right).left == [] && Diff(left, right).right != []
    ensures Diff(left, right) == Split(left, [], [], right[|left|..])
  {
    hide Lex, Matched, FollowUp, Finish;
  }
}
