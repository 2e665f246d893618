/** Splitting two rendered templates into a shared prefix and suffix and the parts that differ. */
module DiffSplit {
  import opened MarkerLexer

  datatype Split = Split(prefix: string, suffix: string, left: string, right: string)

  /** Both sides are put together again by the split. */
  predicate Rebuilds(r: Split, left: string, right: string) {
    r.prefix + r.left + r.suffix == left && r.prefix + r.right + r.suffix == right
  }

  // ----- Common ends ----------------------------------------------------------

  /** The end of the run of equal characters that starts at `n`. */
  function CommonPrefix(a: string, b: string, n: nat): (r: nat)
    requires n <= |a| && n <= |b|
    ensures n <= r <= |a| && r <= |b|
    ensures forall i :: n <= i < r ==> a[i] == b[i]
    ensures r < |a| && r < |b| ==> a[r] != b[r]
    decreases |a| - n
  {
    if n < |a| && n < |b| && a[n] == b[n] then CommonPrefix(a, b, n + 1) else n
  }

  /** The same, counted from the end. */
  function CommonSuffix(a: string, b: string, n: nat): (r: nat)
    requires n <= |a| && n <= |b|
    ensures n <= r <= |a| && r <= |b|
    ensures r < |a| && r < |b| ==> a[|a| - 1 - r] != b[|b| - 1 - r]
    decreases |a| - n
  {
    if n < |a| && n < |b| && a[|a| - 1 - n] == b[|b| - 1 - n] then CommonSuffix(a, b, n + 1) else n
  }

  function Tail(a: string, n: nat): string
    requires n <= |a|
  {
    a[|a| - n..]
  }

  lemma TailGrows(a: string, n: nat)
    requires n < |a|
    ensures Tail(a, n + 1) == [a[|a| - 1 - n]] + Tail(a, n)
  {
  }

  lemma {:induction false} CommonSuffixIsCommon(a: string, b: string, n: nat)
    requires n <= |a| && n <= |b| && Tail(a, n) == Tail(b, n)
    ensures Tail(a, CommonSuffix(a, b, n)) == Tail(b, CommonSuffix(a, b, n))
    decreases |a| - n
  {
    hide Tail;
    if n < |a| && n < |b| && a[|a| - 1 - n] == b[|b| - 1 - n] {
      TailGrows(a, n);
      TailGrows(b, n);
      CommonSuffixIsCommon(a, b, n + 1);
    }
  }

  method CommonPrefixLen(a: string, b: string) returns (n: nat)
    ensures n == CommonPrefix(a, b, 0)
  {
    n := 0;
    var min := if |a| < |b| then |a| else |b|;
    while n < min && a[n] == b[n]
      invariant n <= min && CommonPrefix(a, b, n) == CommonPrefix(a, b, 0)
    {
      n := n + 1;
    }
  }

  method CommonSuffixLen(a: string, b: string) returns (n: nat)
    ensures n == CommonSuffix(a, b, 0)
  {
    n := 0;
    var min := if |a| < |b| then |a| else |b|;
    while n < min && a[|a| - 1 - n] == b[|b| - 1 - n]
      invariant n <= min && CommonSuffix(a, b, n) == CommonSuffix(a, b, 0)
    {
      n := n + 1;
    }
  }

  // ----- The two-ended match over segments ------------------------------------

  /** The first and last segment (both included) still unmatched on each side, and whether that last one is already used up. */
  datatype Window = Window(
    ls: nat, le: nat, rs: nat, re: nat,
    prefix: string, suffix: string,
    leftDone: bool, rightDone: bool)

  predicate InRange(w: Window, l: seq<Segment>, r: seq<Segment>) {
    && w.ls <= w.le < |l| && w.rs <= w.re < |r|
    && (w.leftDone ==> w.ls == w.le) && (w.rightDone ==> w.rs == w.re)
  }

  function MatchFront(w: Window, l: seq<Segment>, r: seq<Segment>): (w': Window)
    requires InRange(w, l, r) && w.ls != w.le && w.rs != w.re
    ensures InRange(w', l, r)
  {
    if l[w.ls] == r[w.rs] then w.(prefix := w.prefix + l[w.ls].value, ls := w.ls + 1, rs := w.rs + 1) else w
  }

  function MatchBack(w: Window, l: seq<Segment>, r: seq<Segment>): (w': Window)
    requires InRange(w, l, r)
    ensures InRange(w', l, r)
  {
    if l[w.le] == r[w.re] then
      var w1 := w.(suffix := l[w.le].value + w.suffix);
      var w2 := if w1.ls != w1.le then w1.(le := w1.le - 1) else w1.(leftDone := true);
      if w2.rs != w2.re then w2.(re := w2.re - 1) else w2.(rightDone := true)
    else w
  }

  function Narrow(w: Window, l: seq<Segment>, r: seq<Segment>): (w': Window)
    requires InRange(w, l, r)
    ensures InRange(w', l, r) && (w'.ls == w'.le || w'.rs == w'.re || l[w'.le] != r[w'.re])
    decreases w.le - w.ls
  {
    if w.ls == w.le || w.rs == w.re then w
    else
      var w1 := MatchFront(w, l, r);
      var w2 := MatchBack(w1, l, r);
      if l[w.ls] == r[w.rs] || l[w1.le] == r[w1.re] then Narrow(w2, l, r) else w2
  }

  /** Which of the three follow-up tests applies, and on success whether the match goes to the suffix. */
  datatype Follow = NoMatch | ToSuffix | ToPrefix

  function FollowKind(w: Window, l: seq<Segment>, r: seq<Segment>): Follow
    requires InRange(w, l, r)
  {
    if w.ls == w.le && w.rs != w.re then
      if l[w.ls] == r[w.re] then ToSuffix else if l[w.ls] == r[w.rs] then ToPrefix else NoMatch
    else if w.rs == w.re && w.ls != w.le then
      if l[w.le] == r[w.rs] then ToSuffix else if l[w.ls] == r[w.rs] then ToPrefix else NoMatch
    else if w.ls == w.le && w.rs == w.re && l[w.ls] == r[w.rs] && l[w.ls].kind == Marker then ToPrefix
    else NoMatch
  }

  /** The match of a single last segment on one side, made without looking at the flags. */
  function FollowUp(w: Window, l: seq<Segment>, r: seq<Segment>): (w': Window)
    requires InRange(w, l, r)
    ensures InRange(w', l, r)
  {
    match FollowKind(w, l, r)
    case NoMatch => w
    case ToSuffix =>
      if w.ls == w.le then w.(suffix := r[w.re].value + w.suffix, re := w.re - 1, leftDone := true)
      else w.(suffix := l[w.le].value + w.suffix, le := w.le - 1, rightDone := true)
    case ToPrefix =>
      if w.ls == w.le && w.rs == w.re then w.(prefix := w.prefix + r[w.rs].value, leftDone := true, rightDone := true)
      else if w.ls == w.le then w.(prefix := w.prefix + r[w.rs].value, rs := w.rs + 1, leftDone := true)
      else w.(prefix := w.prefix + l[w.ls].value, ls := w.ls + 1, rightDone := true)
  }

  function Rest(segments: seq<Segment>, first: nat, last: nat, done: bool): string
    requires first <= last < |segments|
  {
    Concat(segments[first..if done then last else last + 1])
  }

  // ----- The characters in between --------------------------------------------

  /** How many characters of two remainders go to the suffix, and of what is left to the prefix. */
  function SuffixLength(a: string, b: string, textSuffix: bool): (n: nat)
    ensures n <= |a| && n <= |b| && a[|a| - n..] == b[|b| - n..]
  {
    CommonSuffixIsCommon(a, b, 0);
    if textSuffix then CommonSuffix(a, b, 0) else 0
  }

  function PrefixLength(a: string, b: string, textPrefix: bool): (m: nat)
    ensures m <= |a| && m <= |b| && a[..m] == b[..m]
  {
    if textPrefix then CommonPrefix(a, b, 0) else 0
  }

  /** Moves the common ends of two remainders out of them. */
  function TrimCommon(prefix: string, suffix: string, a: string, b: string, textPrefix: bool, textSuffix: bool): Split {
    var n := SuffixLength(a, b, textSuffix);
    var m := PrefixLength(a[..|a| - n], b[..|b| - n], textPrefix);
    Split(prefix + a[..m], a[|a| - n..] + suffix, a[m..|a| - n], b[m..|b| - n])
  }

  /** The two repair steps. */
  function Repair(r: Split, left: string, right: string): Split {
    var r1 := if r.left == [] && r.right == [] then r.(prefix := left, suffix := []) else r;
    if r1.left == [] && r1.right != [] && left <= right then
      r1.(prefix := left, suffix := [], right := right[|left|..])
    else r1
  }

  function FirstWindow(l: seq<Segment>, r: seq<Segment>): Window
    requires l != [] && r != []
  {
    Window(0, |l| - 1, 0, |r| - 1, [], [], false, false)
  }

  function Matched(left: string, right: string): (w: Window)
    requires left != [] && right != []
    ensures InRange(w, Lex(left), Lex(right))
  {
    LexStartsAt(left);
    LexStartsAt(right);
    Narrow(FirstWindow(Lex(left), Lex(right)), Lex(left), Lex(right))
  }

  function Finish(w: Window, l: seq<Segment>, r: seq<Segment>): Split
    requires InRange(w, l, r)
  {
    var textSuffix := l[w.le].kind == Text && r[w.re].kind == Text;
    var textPrefix := r[w.rs].kind == Text && l[w.ls].kind == Text;
    TrimCommon(w.prefix, w.suffix, Rest(l, w.ls, w.le, w.leftDone), Rest(r, w.rs, w.re, w.rightDone), textPrefix, textSuffix)
  }

  function Diff(left: string, right: string): Split {
    if left == [] then Split([], [], [], right)
    else if right == [] then Split([], [], left, [])
    else
      var l, r := Lex(left), Lex(right);
      Repair(Finish(FollowUp(Matched(left, right), l, r), l, r), left, right)
  }

  method Accumulate(segments: seq<Segment>, from: nat, to: nat) returns (s: string)
    requires from <= to <= |segments|
    ensures s == Concat(segments[from..to])
  {
    s := [];
    for i := from to to
      invariant s + Concat(segments[i..to]) == Concat(segments[from..to])
    {
      assert segments[i..to][1..] == segments[i + 1..to];
      s := s + segments[i].value;
    }
  }

  method CalculateDiffSplit(left: string, right: string) returns (result: Split)
    ensures result == Diff(left, right)
  {
    result := Split([], [], [], []);
    var l := SegmentizeMarkers(left);
    var r := SegmentizeMarkers(right);
    LexStartsAt(left);
    LexStartsAt(right);
    if l == [] {
      return result.(right := right);
    }
    if r == [] {
      return result.(left := left);
    }
    hide Lex, Narrow, FollowUp, Finish;
    var w := MatchSegments(l, r);
    w := FollowUp(w, l, r);
    result := SplitRemainders(w, l, r);
    if result.left == [] && result.right == [] {
      result := result.(prefix := left, suffix := []);
    }
    if result.left == [] && result.right != [] && |left| <= |right| && right[..|left|] == left {
      result := result.(prefix := left, suffix := [], right := right[|left|..]);
    }
  }

  method SplitRemainders(w: Window, l: seq<Segment>, r: seq<Segment>) returns (result: Split)
    requires InRange(w, l, r)
    ensures result == Finish(w, l, r)
  {
    hide Lex, Concat, TrimCommon;
    var textSuffix := l[w.le].kind == Text && r[w.re].kind == Text;
    var textPrefix := r[w.rs].kind == Text && l[w.ls].kind == Text;
    var a := Accumulate(l, w.ls, if w.leftDone then w.le else w.le + 1);
    var b := Accumulate(r, w.rs, if w.rightDone then w.re else w.re + 1);
    result := TrimEnds(w.prefix, w.suffix, a, b, textPrefix, textSuffix);
  }

  method TrimEnds(prefix: string, suffix: string, a: string, b: string, textPrefix: bool, textSuffix: bool)
    returns (result: Split)
    ensures result == TrimCommon(prefix, suffix, a, b, textPrefix, textSuffix)
  {
    hide CommonPrefix, CommonSuffix;
    var n, m := 0, 0;
    if textSuffix {
      n := CommonSuffixLen(a, b);
    }
    if textPrefix {
      m := CommonPrefixLen(a[..|a| - n], b[..|b| - n]);
    }
    return Split(prefix + a[..m], a[|a| - n..] + suffix, a[m..|a| - n], b[m..|b| - n]);
  }

  /** The loop that matches segments from both ends. */
  method MatchSegments(l: seq<Segment>, r: seq<Segment>) returns (w: Window)
    requires l != [] && r != []
    ensures w == Narrow(FirstWindow(l, r), l, r)
  {
    w := Window(0, |l| - 1, 0, |r| - 1, [], [], false, false);
    while w.ls != w.le && w.rs != w.re
      invariant InRange(w, l, r)
      invariant Narrow(w, l, r) == Narrow(FirstWindow(l, r), l, r)
      decreases w.le - w.ls
    {
      ghost var w0 := w;
      var advanced := false;
      if l[w.ls] == r[w.rs] {
        w := w.(prefix := w.prefix + l[w.ls].value, ls := w.ls + 1, rs := w.rs + 1);
        advanced := true;
      }
      if l[w.le] == r[w.re] {
        w := w.(suffix := l[w.le].value + w.suffix);
        if w.ls != w.le {
          w := w.(le := w.le - 1);
        } else {
          w := w.(leftDone := true);
        }
        if w.rs != w.re {
          w := w.(re := w.re - 1);
        } else {
          w := w.(rightDone := true);
        }
        advanced := true;
      }
      assert w == MatchBack(MatchFront(w0, l, r), l, r);
      assert advanced ==> Narrow(w, l, r) == Narrow(w0, l, r);
      if !advanced {
        assert w == w0;
        break;
      }
    }
  }

  // ----- Putting the sides together again -------------------------------------

  lemma {:induction false} ConcatAppend(a: seq<Segment>, b: seq<Segment>)
    ensures Concat(a + b) == Concat(a) + Concat(b)
    decreases |a|
  {
    if a == [] {
      assert a + b == b;
    } else {
      assert (a + b)[0] == a[0] && (a + b)[1..] == a[1..] + b;
      ConcatAppend(a[1..], b);
    }
  }

  lemma ConcatOne(x: Segment)
    ensures Concat([x]) == x.value
  {
    assert [x][1..] == [];
    assert Concat([x][1..]) == [];
  }

  lemma RestFront(s: seq<Segment>, first: nat, last: nat)
    requires first < last < |s|
    ensures Rest(s, first, last, false) == s[first].value + Rest(s, first + 1, last, false)
  {
    assert s[first..last + 1] == [s[first]] + s[first + 1..last + 1];
    ConcatAppend([s[first]], s[first + 1..last + 1]);
    ConcatOne(s[first]);
  }

  lemma RestBack(s: seq<Segment>, first: nat, last: nat)
    requires first < last < |s|
    ensures Rest(s, first, last, false) == Rest(s, first, last - 1, false) + s[last].value
  {
    assert s[first..last + 1] == s[first..last] + [s[last]];
    ConcatAppend(s[first..last], [s[last]]);
    ConcatOne(s[last]);
  }

  lemma RestLast(s: seq<Segment>, i: nat)
    requires i < |s|
    ensures Rest(s, i, i, false) == s[i].value && Rest(s, i, i, true) == []
  {
    assert s[i..i + 1] == [s[i]] && s[i..i] == [];
    ConcatOne(s[i]);
  }

  /** What is matched and what is left make up both sides. */
  predicate Covers(w: Window, l: seq<Segment>, r: seq<Segment>, left: string, right: string) {
    && InRange(w, l, r)
    && w.prefix + Rest(l, w.ls, w.le, w.leftDone) + w.suffix == left
    && w.prefix + Rest(r, w.rs, w.re, w.rightDone) + w.suffix == right
  }

  lemma Regroup(a: string, b: string, c: string, d: string)
    ensures a + (b + c) + d == (a + b) + c + d
    ensures a + (b + c) + d == a + b + (c + d)
  {
    assert a + (b + c) + d == a + b + c + d;
  }

  lemma MatchFrontCovers(w: Window, l: seq<Segment>, r: seq<Segment>, left: string, right: string)
    requires Covers(w, l, r, left, right) && w.ls != w.le && w.rs != w.re
    ensures Covers(MatchFront(w, l, r), l, r, left, right)
  {
    hide Rest;
    if l[w.ls] == r[w.rs] {
      RestFront(l, w.ls, w.le);
      RestFront(r, w.rs, w.re);
      Regroup(w.prefix, l[w.ls].value, Rest(l, w.ls + 1, w.le, false), w.suffix);
      Regroup(w.prefix, r[w.rs].value, Rest(r, w.rs + 1, w.re, false), w.suffix);
    }
  }

  /** What is left of a side once its last segment moves to the suffix. */
  lemma RestWithoutLast(s: seq<Segment>, first: nat, last: nat, prefix: string, suffix: string)
    requires first <= last < |s|
    ensures prefix + Rest(s, first, last, false) + suffix
         == prefix + (if first == last then Rest(s, first, last, true) else Rest(s, first, last - 1, false)) + (s[last].value + suffix)
  {
    hide Rest;
    if first == last {
      RestLast(s, first);
      Regroup(prefix, [], s[last].value, suffix);
      assert [] + s[last].value == s[last].value;
    } else {
      RestBack(s, first, last);
      Regroup(prefix, Rest(s, first, last - 1, false), s[last].value, suffix);
    }
  }

  lemma MatchBackCovers(w: Window, l: seq<Segment>, r: seq<Segment>, left: string, right: string)
    requires Covers(w, l, r, left, right) && !w.leftDone && !w.rightDone
    ensures Covers(MatchBack(w, l, r), l, r, left, right)
  {
    hide Rest;
    if l[w.le] == r[w.re] {
      RestWithoutLast(l, w.ls, w.le, w.prefix, w.suffix);
      RestWithoutLast(r, w.rs, w.re, w.prefix, w.suffix);
    }
  }

  lemma {:induction false} NarrowCovers(w: Window, l: seq<Segment>, r: seq<Segment>, left: string, right: string)
    requires Covers(w, l, r, left, right)
    ensures Covers(Narrow(w, l, r), l, r, left, right)
    decreases w.le - w.ls
  {
    hide Rest, Covers;
    CoversInRange(w, l, r, left, right);
    if w.ls != w.le && w.rs != w.re {
      MatchFrontCovers(w, l, r, left, right);
      var w1 := MatchFront(w, l, r);
      MatchBackCovers(w1, l, r, left, right);
      if l[w.ls] == r[w.rs] || l[w1.le] == r[w1.re] {
        NarrowCovers(MatchBack(w1, l, r), l, r, left, right);
      }
    }
  }

  lemma CoversInRange(w: Window, l: seq<Segment>, r: seq<Segment>, left: string, right: string)
    requires Covers(w, l, r, left, right)
    ensures InRange(w, l, r)
  {
  }

  lemma MatchedCovers(left: string, right: string)
    requires left != [] && right != []
    ensures Covers(Matched(left, right), Lex(left), Lex(right), left, right)
  {
    hide Narrow, Lex, Rest, Concat;
    var l, r := Lex(left), Lex(right);
    WholeRest(left);
    WholeRest(right);
    FirstCovers(l, r, left, right);
    NarrowCovers(FirstWindow(l, r), l, r, left, right);
  }

  lemma FirstCovers(l: seq<Segment>, r: seq<Segment>, left: string, right: string)
    requires l != [] && r != []
    requires Rest(l, 0, |l| - 1, false) == left && Rest(r, 0, |r| - 1, false) == right
    ensures Covers(FirstWindow(l, r), l, r, left, right)
  {
    hide Rest;
    assert [] + left + [] == left && [] + right + [] == right;
  }

  lemma WholeRest(s: string)
    requires s != []
    ensures Lex(s) != [] && Rest(Lex(s), 0, |Lex(s)| - 1, false) == s
  {
    LexStartsAt(s);
    LexIsWellFormed(s);
    hide Lex;
    assert Lex(s)[0..|Lex(s)|] == Lex(s);
  }

  /** The follow-up match uses a segment the loop already gave away on one side only. */
  predicate Slips(w: Window, l: seq<Segment>, r: seq<Segment>)
    requires InRange(w, l, r)
  {
    FollowKind(w, l, r) != NoMatch && w.leftDone != w.rightDone
  }

  lemma FollowUpCovers(w: Window, l: seq<Segment>, r: seq<Segment>, left: string, right: string)
    requires Covers(w, l, r, left, right) && !w.leftDone && !w.rightDone
    ensures Covers(FollowUp(w, l, r), l, r, left, right)
  {
    hide Rest;
    match FollowKind(w, l, r)
    case NoMatch =>
    case ToSuffix =>
      RestWithoutLast(l, w.ls, w.le, w.prefix, w.suffix);
      RestWithoutLast(r, w.rs, w.re, w.prefix, w.suffix);
    case ToPrefix =>
      RestWithoutFirst(l, w.ls, w.le, w.prefix, w.suffix);
      RestWithoutFirst(r, w.rs, w.re, w.prefix, w.suffix);
  }

  lemma RestWithoutFirst(s: seq<Segment>, first: nat, last: nat, prefix: string, suffix: string)
    requires first <= last < |s|
    ensures prefix + Rest(s, first, last, false) + suffix
         == (prefix + s[first].value) + (if first == last then Rest(s, first, last, true) else Rest(s, first + 1, last, false)) + suffix
  {
    hide Rest;
    if first == last {
      RestLast(s, first);
      assert prefix + s[first].value + [] + suffix == prefix + s[first].value + suffix;
    } else {
      RestFront(s, first, last);
      Regroup(prefix, s[first].value, Rest(s, first + 1, last, false), suffix);
    }
  }

  lemma TrimCommonKeeps(prefix: string, suffix: string, a: string, b: string, textPrefix: bool, textSuffix: bool)
    ensures Rebuilds(TrimCommon(prefix, suffix, a, b, textPrefix, textSuffix), prefix + a + suffix, prefix + b + suffix)
  {
    hide SuffixLength, PrefixLength;
    var n := SuffixLength(a, b, textSuffix);
    var m := PrefixLength(a[..|a| - n], b[..|b| - n], textPrefix);
    FrontOfFront(a, m, n);
    FrontOfFront(b, m, n);
    ThreeParts(prefix, suffix, a, m, n);
    ThreeParts(prefix, suffix, b, m, n);
  }

  lemma FrontOfFront(a: string, m: nat, n: nat)
    requires m + n <= |a|
    ensures a[..|a| - n][..m] == a[..m]
  {
  }

  lemma ThreeParts(prefix: string, suffix: string, a: string, m: nat, n: nat)
    requires m + n <= |a|
    ensures (prefix + a[..m]) + a[m..|a| - n] + (a[|a| - n..] + suffix) == prefix + a + suffix
  {
    assert a == a[..m] + a[m..|a| - n] + a[|a| - n..];
  }

  lemma FinishRebuilds(w: Window, l: seq<Segment>, r: seq<Segment>, left: string, right: string)
    requires Covers(w, l, r, left, right)
    ensures Rebuilds(Finish(w, l, r), left, right)
  {
    hide TrimCommon, Rest;
    var textSuffix := l[w.le].kind == Text && r[w.re].kind == Text;
    var textPrefix := r[w.rs].kind == Text && l[w.ls].kind == Text;
    TrimCommonKeeps(w.prefix, w.suffix, Rest(l, w.ls, w.le, w.leftDone), Rest(r, w.rs, w.re, w.rightDone), textPrefix, textSuffix);
  }

  lemma RepairRebuilds(r: Split, left: string, right: string)
    requires Rebuilds(r, left, right)
    ensures Rebuilds(Repair(r, left, right), left, right)
  {
    if r.left == [] && r.right == [] {
      assert r.prefix + [] + r.suffix == r.prefix + r.suffix;
      assert left + [] + [] == left;
    }
    if left <= right {
      assert left + [] + [] == left;
      assert left + right[|left|..] + [] == right;
    }
  }

  // ----- Exactly when the split is faithful -----------------------------------

  /** No segment is used twice, or the slip is undone by the repair of a left side that starts the right one. */
  predicate Faithful(left: string, right: string) {
    left == [] || right == [] ||
    (var w := Matched(left, right);
     !Slips(w, Lex(left), Lex(right)) || (w.leftDone && w.rs != w.re && left <= right))
  }

  lemma {:induction false} SegmentsNotEmpty(segments: seq<Segment>, i: nat)
    requires WellFormed(segments) && i < |segments|
    ensures segments[i].value != []
    decreases i
  {
    if i > 0 {
      SegmentsNotEmpty(segments[1..], i - 1);
    }
  }

  /** Every segment of both sides has at least one character. */
  ghost predicate NoEmptySegment(l: seq<Segment>) {
    forall i :: 0 <= i < |l| ==> l[i].value != []
  }

  lemma LexedNotEmpty(s: string)
    ensures NoEmptySegment(Lex(s))
  {
    LexIsWellFormed(s);
    forall i | 0 <= i < |Lex(s)| ensures Lex(s)[i].value != [] {
      SegmentsNotEmpty(Lex(s), i);
    }
  }

  lemma RestNotEmpty(s: seq<Segment>, first: nat, last: nat)
    requires first <= last < |s| && NoEmptySegment(s)
    ensures Rest(s, first, last, false) != []
  {
    if first == last {
      RestLast(s, first);
    } else {
      RestFront(s, first, last);
    }
    hide Rest;
    assert s[first].value != [];
  }

  lemma TrimEmpty(prefix: string, suffix: string, a: string, b: string, textPrefix: bool, textSuffix: bool)
    requires a == [] || b == []
    ensures TrimCommon(prefix, suffix, a, b, textPrefix, textSuffix) == Split(prefix, suffix, a, b)
  {
    hide SuffixLength, PrefixLength;
    assert SuffixLength(a, b, textSuffix) == 0;
    assert a[|a|..] == [] && a[..|a|] == a && b[..|b|] == b && a[0..|a|] == a && b[0..|b|] == b;
    assert PrefixLength(a, b, textPrefix) == 0;
    assert prefix + [] == prefix && [] + suffix == suffix;
  }

  lemma FinishEmpty(w: Window, l: seq<Segment>, r: seq<Segment>)
    requires InRange(w, l, r) && (w.leftDone || w.rightDone)
    ensures Finish(w, l, r) == Split(w.prefix, w.suffix, Rest(l, w.ls, w.le, w.leftDone), Rest(r, w.rs, w.re, w.rightDone))
    ensures w.leftDone ==> Rest(l, w.ls, w.le, true) == []
    ensures w.rightDone ==> Rest(r, w.rs, w.re, true) == []
  {
    hide TrimCommon;
    var a, b := Rest(l, w.ls, w.le, w.leftDone), Rest(r, w.rs, w.re, w.rightDone);
    if w.leftDone {
      RestLast(l, w.ls);
    }
    if w.rightDone {
      RestLast(r, w.rs);
    }
    hide Rest;
    var textSuffix := l[w.le].kind == Text && r[w.re].kind == Text;
    var textPrefix := r[w.rs].kind == Text && l[w.ls].kind == Text;
    TrimEmpty(w.prefix, w.suffix, a, b, textPrefix, textSuffix);
  }

  lemma NoSlipRebuilds(w: Window, l: seq<Segment>, r: seq<Segment>, left: string, right: string)
    requires Covers(w, l, r, left, right) && !Slips(w, l, r)
    ensures Rebuilds(Repair(Finish(FollowUp(w, l, r), l, r), left, right), left, right)
  {
    hide Rest, Finish, Repair;
    if w.leftDone && w.rightDone {
      RestLast(l, w.ls);
      RestLast(r, w.rs);
      assert left == right == w.prefix + w.suffix by {
        assert w.prefix + [] + w.suffix == w.prefix + w.suffix;
      }
      var f := FollowUp(w, l, r);
      assert f.leftDone && f.rightDone;
      FinishEmpty(f, l, r);
      RepairSame(Finish(f, l, r), left);
    } else {
      if FollowKind(w, l, r) != NoMatch {
        FollowUpCovers(w, l, r, left, right);
      }
      FinishRebuilds(FollowUp(w, l, r), l, r, left, right);
      RepairRebuilds(Finish(FollowUp(w, l, r), l, r), left, right);
    }
  }

  lemma RepairSame(r: Split, left: string)
    requires r.left == [] && r.right == []
    ensures Rebuilds(Repair(r, left, left), left, left)
  {
    assert left + [] + [] == left;
  }

  /** The left side was used up, and its last segment is matched again. */
  lemma LeftSlip(w: Window, l: seq<Segment>, r: seq<Segment>, left: string, right: string)
    requires Covers(w, l, r, left, right) && NoEmptySegment(l) && NoEmptySegment(r)
    requires Slips(w, l, r) && w.leftDone
    ensures Rebuilds(Repair(Finish(FollowUp(w, l, r), l, r), left, right), left, right)
       <==> w.rs != w.re && left <= right
  {
    hide Rest, Finish;
    var f := FollowUp(w, l, r);
    RestLast(l, w.ls);
    assert |left| == |w.prefix| + |w.suffix|;
    assert f.leftDone && |f.prefix| + |f.suffix| > |left|;
    FinishEmpty(f, l, r);
    if w.rs != w.re {
      RestNotEmpty(r, f.rs, f.re);
      if left <= right {
        assert left + right[|left|..] == right;
        assert left + [] + [] == left && left + right[|left|..] + [] == right;
      } else {
        assert |f.prefix + [] + f.suffix| > |left|;
      }
    } else {
      RestLast(r, w.rs);
      assert |right| > |left|;
      assert |left + [] + []| == |left|;
    }
  }

  /** The right side was used up, and its last segment is matched again. */
  lemma RightSlip(w: Window, l: seq<Segment>, r: seq<Segment>, left: string, right: string)
    requires Covers(w, l, r, left, right) && NoEmptySegment(l) && NoEmptySegment(r)
    requires Slips(w, l, r) && w.rightDone
    ensures !Rebuilds(Repair(Finish(FollowUp(w, l, r), l, r), left, right), left, right)
  {
    hide Rest, Finish;
    var f := FollowUp(w, l, r);
    RestLast(r, w.rs);
    assert |right| == |w.prefix| + |w.suffix|;
    assert f.rightDone && |f.prefix| + |f.suffix| > |right|;
    FinishEmpty(f, l, r);
    if w.ls != w.le {
      RestNotEmpty(l, f.ls, f.le);
      assert |f.prefix + [] + f.suffix| > |right|;
    } else {
      RestLast(l, w.ls);
      assert |left| > |right|;
      assert |left + [] + []| == |left|;
    }
  }

  /** The split puts both templates together again exactly when it is faithful. */
  lemma DiffRebuildsExactly(left: string, right: string)
    ensures Rebuilds(Diff(left, right), left, right) <==> Faithful(left, right)
  {
    if left == [] || right == [] {
      assert [] + left + [] == left && [] + right + [] == right;
    } else {
      var w, l, r := Matched(left, right), Lex(left), Lex(right);
      MatchedCovers(left, right);
      LexedNotEmpty(left);
      LexedNotEmpty(right);
      hide Lex, Matched, Covers, Repair, Finish, FollowUp, NoEmptySegment;
      if !Slips(w, l, r) {
        NoSlipRebuilds(w, l, r, left, right);
      } else if w.leftDone {
        LeftSlip(w, l, r, left, right);
      } else {
        RightSlip(w, l, r, left, right);
      }
    }
  }

  /** A repeated last marker is the smallest slip: the added copy is reported as no difference. */
  lemma RepeatedMarkerIsLost()
    ensures Diff("<a><b>", "<a><b><b>").right == [] && !Rebuilds(Diff("<a><b>", "<a><b><b>"), "<a><b>", "<a><b><b>")
  {
    var left, right := "<a><b>", "<a><b><b>";
    ExampleWindow(left, right);
    var w, l, r := Matched(left, right), Lex(left), Lex(right);
    DiffRebuildsExactly(left, right);
    assert left != [] && right != [];
    hide Lex, Matched, Rest, TrimCommon, Finish, Narrow;
    FinishEmpty(FollowUp(w, l, r), l, r);
  }

  lemma ExampleWindow(left: string, right: string)
    requires left == "<a><b>" && right == "<a><b><b>"
    ensures Lex(left) == Markers(["<a>", "<b>"]) && Lex(right) == Markers(["<a>", "<b>", "<b>"])
    ensures Matched(left, right) == Window(1, 1, 1, 1, "<a>", "<b>", true, false)
  {
    assert ["<a>", "<b>"][1..] == ["<b>"] && ["<b>"][1..] == [] && ["<a>", "<b>", "<b>"][1..] == ["<b>", "<b>"];
    assert ["<b>", "<b>"][1..] == ["<b>"];
    assert ConcatTexts(["<b>"]) == "<b>" && ConcatTexts(["<b>", "<b>"]) == "<b><b>";
    MarkersAreLexed(["<a>", "<b>"], left);
    MarkersAreLexed(["<a>", "<b>", "<b>"], right);
    NarrowExample(Lex(left), Lex(right), Window(1, 1, 1, 1, "<a>", "<b>", true, false));
  }

  function Markers(values: seq<string>): (r: seq<Segment>)
    ensures |r| == |values| && forall i :: 0 <= i < |values| ==> r[i] == Segment(Marker, values[i])
  {
    seq(|values|, i requires 0 <= i < |values| => Segment(Marker, values[i]))
  }

  function ConcatTexts(values: seq<string>): string {
    if values == [] then [] else values[0] + ConcatTexts(values[1..])
  }

  lemma {:induction false} MarkersWellFormed(values: seq<string>)
    requires forall i :: 0 <= i < |values| ==> IsMarkerText(values[i])
    ensures WellFormed(Markers(values)) && Concat(Markers(values)) == ConcatTexts(values)
  {
    if values != [] {
      assert Markers(values)[1..] == Markers(values[1..]);
      MarkersWellFormed(values[1..]);
    }
  }

  lemma MarkersAreLexed(values: seq<string>, s: string)
    requires forall i :: 0 <= i < |values| ==> IsMarkerText(values[i])
    requires s == ConcatTexts(values)
    ensures Lex(s) == Markers(values)
  {
    MarkersWellFormed(values);
    LexExactly(s, Markers(values));
  }

  lemma NarrowExample(l: seq<Segment>, r: seq<Segment>, w: Window)
    requires |l| == 2 && |r| == 3 && l[0] == r[0] && l[1] == r[1] == r[2] && l[0].value == "<a>" && l[1].value == "<b>"
    requires w == Window(1, 1, 1, 1, "<a>", "<b>", true, false)
    ensures Narrow(FirstWindow(l, r), l, r) == w
  {
    var w0 := FirstWindow(l, r);
    assert [] + "<a>" == "<a>" && "<b>" + [] == "<b>";
    assert MatchBack(MatchFront(w0, l, r), l, r) == w;
    assert Narrow(w, l, r) == w;
  }
}
