/** Cutting a tokenized prompt into message spans at role delimiters, jumping over media regions. */
module MessageSpans {
  import opened Wrappers

  type Token = int

  datatype Role = Unknown | System | Assistant | User | Tool

  datatype Delimiter = Delimiter(role: Role, tokens: seq<Token>)

  /** A region to jump over; a prompt's regions come in the order of their starts. */
  datatype Skip = Skip(start: nat, len: nat)

  datatype Match = Match(role: Role, pos: nat)

  datatype Span = Span(role: Role, pos: nat, len: nat)

  // ----- Which positions start a message --------------------------------------

  predicate MatchesAt(d: Delimiter, tokens: seq<Token>, i: nat) {
    i + |d.tokens| <= |tokens| && tokens[i..i + |d.tokens|] == d.tokens
  }

  /** The role of the first listed delimiter that matches at `i`. */
  function RoleAt(ds: seq<Delimiter>, tokens: seq<Token>, i: nat): Option<Role> {
    if ds == [] then None
    else if MatchesAt(ds[0], tokens, i) then Some(ds[0].role)
    else RoleAt(ds[1..], tokens, i)
  }

  lemma {:induction false} RoleAtIsFirstListed(ds: seq<Delimiter>, tokens: seq<Token>, i: nat, role: Role)
    ensures RoleAt(ds, tokens, i) == Some(role) <==>
            exists k :: 0 <= k < |ds| && MatchesAt(ds[k], tokens, i) && ds[k].role == role
                        && forall j :: 0 <= j < k ==> !MatchesAt(ds[j], tokens, i)
    ensures RoleAt(ds, tokens, i) == None <==> forall k :: 0 <= k < |ds| ==> !MatchesAt(ds[k], tokens, i)
  {
    if ds != [] {
      var rest := ds[1..];
      assert forall k :: 0 <= k < |rest| ==> rest[k] == ds[k + 1];
      RoleAtIsFirstListed(rest, tokens, i, role);
      if !MatchesAt(ds[0], tokens, i) && RoleAt(rest, tokens, i) == Some(role) {
        var k :| 0 <= k < |rest| && MatchesAt(rest[k], tokens, i) && rest[k].role == role
                 && forall j :: 0 <= j < k ==> !MatchesAt(rest[j], tokens, i);
        FirstListedShifts(ds, tokens, i, k);
      }
      if k :| 1 <= k < |ds| && MatchesAt(ds[k], tokens, i) && ds[k].role == role
              && forall j :: 0 <= j < k ==> !MatchesAt(ds[j], tokens, i) {
        assert MatchesAt(rest[k - 1], tokens, i);
        assert forall j :: 0 <= j < k - 1 ==> !MatchesAt(rest[j], tokens, i);
      }
      if forall k :: 0 <= k < |ds| ==> !MatchesAt(ds[k], tokens, i) {
        assert forall k :: 0 <= k < |rest| ==> !MatchesAt(rest[k], tokens, i);
      }
      if RoleAt(ds, tokens, i) == None {
        forall k | 0 <= k < |ds| ensures !MatchesAt(ds[k], tokens, i) {
          assert k > 0 ==> ds[k] == rest[k - 1];
        }
      }
    }
  }

  lemma FirstListedShifts(ds: seq<Delimiter>, tokens: seq<Token>, i: nat, k: nat)
    requires k + 1 < |ds| && !MatchesAt(ds[0], tokens, i) && MatchesAt(ds[k + 1], tokens, i)
    requires forall j :: 0 <= j < k ==> !MatchesAt(ds[1..][j], tokens, i)
    ensures MatchesAt(ds[k + 1], tokens, i) && forall j :: 0 <= j < k + 1 ==> !MatchesAt(ds[j], tokens, i)
  {
    forall j | 0 <= j < k + 1 ensures !MatchesAt(ds[j], tokens, i) {
      assert j > 0 ==> ds[j] == ds[1..][j - 1];
    }
  }

  // ----- The scan -------------------------------------------------------------

  /** The matches from token `i` on. A skip that starts behind `i` is waited for and never comes. */
  function Matches(tokens: seq<Token>, ds: seq<Delimiter>, skips: seq<Skip>, i: nat): seq<Match>
    decreases (if i < |tokens| then |tokens| - i else 0) + |skips|
  {
    if i >= |tokens| then []
    else if skips != [] && skips[0].start == i then Matches(tokens, ds, skips[1..], i + skips[0].len)
    else
      var here := RoleAt(ds, tokens, i);
      (if here.Some? then [Match(here.value, i)] else []) + Matches(tokens, ds, skips, i + 1)
  }

  /** The skips that take effect in a scan from `i`: all of them until one starts inside its predecessor. */
  function Live(skips: seq<Skip>, i: nat): seq<Skip> {
    if skips == [] || skips[0].start < i then []
    else [skips[0]] + Live(skips[1..], skips[0].start + skips[0].len)
  }

  predicate Covered(skips: seq<Skip>, p: nat) {
    exists k :: 0 <= k < |skips| && skips[k].start <= p < skips[k].start + skips[k].len
  }

  predicate Disjoint(skips: seq<Skip>) {
    forall k :: 0 <= k < |skips| - 1 ==> skips[k].start + skips[k].len <= skips[k + 1].start
  }

  /** Every skip takes effect exactly when none starts inside its predecessor. */
  lemma {:induction false} AllLiveExactly(skips: seq<Skip>, i: nat)
    requires skips != [] ==> i <= skips[0].start
    ensures Live(skips, i) == skips <==> Disjoint(skips)
  {
    if |skips| > 1 {
      var rest := skips[1..];
      var next := skips[0].start + skips[0].len;
      assert Live(skips, i) == [skips[0]] + Live(rest, next);
      assert skips == [skips[0]] + rest;
      assert forall k :: 0 <= k < |rest| ==> rest[k] == skips[k + 1];
      if next <= rest[0].start {
        AllLiveExactly(rest, next);
        assert Live(skips, i) == skips <==> Live(rest, next) == rest;
        if Disjoint(rest) {
          forall k | 0 <= k < |skips| - 1 ensures skips[k].start + skips[k].len <= skips[k + 1].start {
            assert k > 0 ==> skips[k] == rest[k - 1];
          }
        }
      } else {
        assert |Live(skips, i)| == 1;
      }
    }
  }

  /** After a skip that starts inside its predecessor no later region is jumped over. */
  lemma OverlapLosesLaterSkips()
    ensures
      var skips := [Skip(0, 3), Skip(2, 2), Skip(5, 1)];
      && Covered(skips, 5)
      && Matches([0, 0, 0, 0, 0, 7], [Delimiter(User, [7])], skips, 0) == [Match(User, 5)]
  {
    var skips := [Skip(0, 3), Skip(2, 2), Skip(5, 1)];
    var tokens, ds := [0, 0, 0, 0, 0, 7], [Delimiter(User, [7])];
    assert skips[2].start <= 5 < skips[2].start + skips[2].len;
    var rest := skips[1..];
    assert Matches(tokens, ds, skips, 0) == Matches(tokens, ds, rest, 3);
    assert tokens[3..4] == [0] && tokens[4..5] == [0] && tokens[5..6] == [7];
    assert !MatchesAt(ds[0], tokens, 3) && !MatchesAt(ds[0], tokens, 4) && MatchesAt(ds[0], tokens, 5);
    assert RoleAt(ds, tokens, 3) == None && RoleAt(ds, tokens, 4) == None && RoleAt(ds, tokens, 5) == Some(User);
    assert Matches(tokens, ds, rest, 5) == [Match(User, 5)] + Matches(tokens, ds, rest, 6);
    assert Matches(tokens, ds, rest, 4) == Matches(tokens, ds, rest, 5);
  }

  lemma {:induction false} LiveStartsLater(skips: seq<Skip>, i: nat, p: nat)
    requires Covered(Live(skips, i), p)
    ensures i <= p
    decreases |skips|
  {
    var live := Live(skips, i);
    var k :| 0 <= k < |live| && live[k].start <= p < live[k].start + live[k].len;
    if k > 0 {
      var rest := Live(skips[1..], skips[0].start + skips[0].len);
      assert live[k] == rest[k - 1];
      LiveStartsLater(skips[1..], skips[0].start + skips[0].len, p);
    }
  }

  lemma CoveredAfterSkip(skips: seq<Skip>, p: nat)
    requires skips != []
    ensures
      var i, rest := skips[0].start, Live(skips[1..], skips[0].start + skips[0].len);
      Covered(Live(skips, i), p) <==> i <= p < i + skips[0].len || Covered(rest, p)
  {
    var i := skips[0].start;
    var rest := Live(skips[1..], i + skips[0].len);
    assert Live(skips, i) == [skips[0]] + rest;
    hide Live;
    CoveredByFirst(skips[0], rest, p);
  }

  lemma CoveredByFirst(first: Skip, rest: seq<Skip>, p: nat)
    ensures Covered([first] + rest, p) <==> first.start <= p < first.start + first.len || Covered(rest, p)
  {
    var skips := [first] + rest;
    if Covered(rest, p) {
      var k :| 0 <= k < |rest| && rest[k].start <= p < rest[k].start + rest[k].len;
      assert skips[k + 1] == rest[k];
    }
    assert skips[0] == first;
    if k :| 1 <= k < |skips| && skips[k].start <= p < skips[k].start + skips[k].len {
      assert rest[k - 1] == skips[k];
    }
  }

  lemma CoveredOffSkip(skips: seq<Skip>, i: nat, p: nat)
    requires skips == [] || skips[0].start != i
    ensures Live(skips, i) == Live(skips, i + 1)
    ensures !Covered(Live(skips, i), i)
  {
    if Covered(Live(skips, i), i) {
      LiveStartsLater(skips, i + 1, i);
    }
  }

  /** Where the scan from `i` must report a match, said without the scan. */
  predicate Starts(tokens: seq<Token>, ds: seq<Delimiter>, skips: seq<Skip>, i: nat, m: Match) {
    && i <= m.pos < |tokens|
    && !Covered(Live(skips, i), m.pos)
    && RoleAt(ds, tokens, m.pos) == Some(m.role)
  }

  /** The scan reports exactly the live positions at which a delimiter matches. */
  lemma {:induction false} ScanFindsExactly(tokens: seq<Token>, ds: seq<Delimiter>, skips: seq<Skip>, i: nat, m: Match)
    ensures m in Matches(tokens, ds, skips, i) <==> Starts(tokens, ds, skips, i, m)
    decreases (if i < |tokens| then |tokens| - i else 0) + |skips|
  {
    if i >= |tokens| {
    } else if skips != [] && skips[0].start == i {
      ScanFindsExactly(tokens, ds, skips[1..], i + skips[0].len, m);
      CoveredAfterSkip(skips, m.pos);
    } else {
      ScanFindsExactly(tokens, ds, skips, i + 1, m);
      CoveredOffSkip(skips, i, m.pos);
      ScanStep(tokens, ds, skips, i, m);
    }
  }

  lemma ScanStep(tokens: seq<Token>, ds: seq<Delimiter>, skips: seq<Skip>, i: nat, m: Match)
    requires i < |tokens| && (skips == [] || skips[0].start != i)
    ensures
      m in Matches(tokens, ds, skips, i) <==>
      m in Matches(tokens, ds, skips, i + 1) || (m.pos == i && RoleAt(ds, tokens, i) == Some(m.role))
  {
    hide RoleAt;
    var here := RoleAt(ds, tokens, i);
    var first := if here.Some? then [Match(here.value, i)] else [];
    assert Matches(tokens, ds, skips, i) == first + Matches(tokens, ds, skips, i + 1);
    assert m in first <==> m.pos == i && here == Some(m.role);
  }

  predicate Ascending(ms: seq<Match>, low: nat, n: nat) {
    && (forall k :: 0 <= k < |ms| ==> low <= ms[k].pos < n)
    && (forall j, k :: 0 <= j < k < |ms| ==> ms[j].pos < ms[k].pos)
  }

  lemma {:induction false} ScanAscends(tokens: seq<Token>, ds: seq<Delimiter>, skips: seq<Skip>, i: nat)
    ensures Ascending(Matches(tokens, ds, skips, i), i, |tokens|)
    decreases (if i < |tokens| then |tokens| - i else 0) + |skips|
  {
    hide RoleAt;
    if i >= |tokens| {
    } else if skips != [] && skips[0].start == i {
      ScanAscends(tokens, ds, skips[1..], i + skips[0].len);
    } else {
      ScanAscends(tokens, ds, skips, i + 1);
    }
  }

  // ----- Spans ----------------------------------------------------------------

  function NextPos(ms: seq<Match>, n: nat, k: nat): nat
    requires k < |ms|
  {
    if k + 1 < |ms| then ms[k + 1].pos else n
  }

  function SpanAt(ms: seq<Match>, n: nat, k: nat): Span
    requires k < |ms| && Ascending(ms, 0, n)
  {
    Span(ms[k].role, ms[k].pos, NextPos(ms, n, k) - ms[k].pos)
  }

  function SpansOf(ms: seq<Match>, n: nat): seq<Span>
    requires Ascending(ms, 0, n)
  {
    seq(|ms|, k requires 0 <= k < |ms| => SpanAt(ms, n, k))
  }

  function Split(tokens: seq<Token>, ds: seq<Delimiter>, skips: seq<Skip>): seq<Span> {
    ScanAscends(tokens, ds, skips, 0);
    SpansOf(Matches(tokens, ds, skips, 0), |tokens|)
  }

  function StartAfter(spans: seq<Span>, n: nat, k: nat): nat
    requires k < |spans|
  {
    if k + 1 < |spans| then spans[k + 1].pos else n
  }

  /** Each span ends where the next one starts, the last one where the prompt ends, and none is empty. */
  predicate Tiles(spans: seq<Span>, n: nat) {
    forall k :: 0 <= k < |spans| ==>
      && 0 < spans[k].len
      && spans[k].pos + spans[k].len == StartAfter(spans, n, k)
  }

  ghost predicate HasSpan(spans: seq<Span>, role: Role, pos: nat) {
    exists k :: 0 <= k < |spans| && spans[k].role == role && spans[k].pos == pos
  }

  lemma SpansHoldTheMatches(ms: seq<Match>, n: nat, m: Match)
    requires Ascending(ms, 0, n)
    ensures HasSpan(SpansOf(ms, n), m.role, m.pos) <==> m in ms
    ensures Tiles(SpansOf(ms, n), n)
  {
    var spans := SpansOf(ms, n);
    assert |spans| == |ms|;
    forall k | 0 <= k < |ms|
      ensures spans[k].role == ms[k].role && spans[k].pos == ms[k].pos
      ensures 0 < spans[k].len && spans[k].pos + spans[k].len == StartAfter(spans, n, k)
    {
      assert spans[k] == SpanAt(ms, n, k);
      assert k + 1 < |ms| ==> spans[k + 1] == SpanAt(ms, n, k + 1);
    }
    if m in ms {
      var k :| 0 <= k < |ms| && ms[k] == m;
      assert spans[k].role == m.role && spans[k].pos == m.pos;
    }
    if HasSpan(spans, m.role, m.pos) {
      var k :| 0 <= k < |spans| && spans[k].role == m.role && spans[k].pos == m.pos;
      assert ms[k] == m;
    }
  }

  /** A span starts exactly where an uncovered delimiter matches, with the first listed role; spans tile the rest. */
  lemma SpansStartExactly(tokens: seq<Token>, ds: seq<Delimiter>, skips: seq<Skip>, m: Match)
    ensures HasSpan(Split(tokens, ds, skips), m.role, m.pos) <==> Starts(tokens, ds, skips, 0, m)
    ensures Tiles(Split(tokens, ds, skips), |tokens|)
  {
    hide Starts, SpansOf, Matches, HasSpan, Tiles, Ascending;
    ScanFindsExactly(tokens, ds, skips, 0, m);
    ScanAscends(tokens, ds, skips, 0);
    SpansHoldTheMatches(Matches(tokens, ds, skips, 0), |tokens|, m);
  }

  /** A delimiter matches where the prompt goes on with its tokens. */
  lemma MatchesAtExactly(d: Delimiter, tokens: seq<Token>, i: nat)
    ensures MatchesAt(d, tokens, i) <==> i <= |tokens| && d.tokens <= tokens[i..]
  {
    if i <= |tokens| && d.tokens <= tokens[i..] {
      assert tokens[i..][..|d.tokens|] == tokens[i..i + |d.tokens|];
    }
    if MatchesAt(d, tokens, i) {
      assert tokens[i..][..|d.tokens|] == tokens[i..i + |d.tokens|];
    }
  }

  /**
   If no media region starts inside the one before it, spans start exactly where, outside all regions, the prompt goes
   on with the tokens of a delimiter; the first listed one gives the role.
   */
  lemma DisjointRegionsAreSkipped(tokens: seq<Token>, ds: seq<Delimiter>, skips: seq<Skip>, m: Match)
    requires Disjoint(skips)
    ensures
      HasSpan(Split(tokens, ds, skips), m.role, m.pos) <==>
      && m.pos < |tokens| && (forall k :: 0 <= k < |skips| ==> !(skips[k].start <= m.pos < skips[k].start + skips[k].len))
      && exists k :: 0 <= k < |ds| && ds[k].role == m.role && ds[k].tokens <= tokens[m.pos..]
                     && forall j :: 0 <= j < k ==> !(ds[j].tokens <= tokens[m.pos..])
  {
    hide Split, HasSpan;
    SpansStartExactly(tokens, ds, skips, m);
    if skips == [] {
      assert Live(skips, 0) == skips;
    } else {
      AllLiveExactly(skips, 0);
    }
    hide Live, Disjoint;
    RoleAtIsFirstListed(ds, tokens, m.pos, m.role);
    forall k | 0 <= k < |ds| ensures MatchesAt(ds[k], tokens, m.pos) <==> m.pos <= |tokens| && ds[k].tokens <= tokens[m.pos..] {
      MatchesAtExactly(ds[k], tokens, m.pos);
    }
    hide RoleAt, MatchesAt;
  }

  function Text(tokens: seq<Token>, s: Span): seq<Token>
    requires s.pos + s.len <= |tokens|
  {
    tokens[s.pos..s.pos + s.len]
  }

  ghost predicate InRange(spans: seq<Span>, n: nat) {
    forall s :: s in spans ==> s.pos + s.len <= n
  }

  function Texts(tokens: seq<Token>, spans: seq<Span>): seq<Token>
    requires InRange(spans, |tokens|)
  {
    if spans == [] then [] else Text(tokens, spans[0]) + Texts(tokens, spans[1..])
  }

  lemma TilesTail(spans: seq<Span>, n: nat)
    requires Tiles(spans, n) && spans != []
    ensures Tiles(spans[1..], n)
  {
    var rest := spans[1..];
    forall k | 0 <= k < |rest|
      ensures 0 < rest[k].len
      ensures rest[k].pos + rest[k].len == StartAfter(rest, n, k)
    {
      assert rest[k] == spans[k + 1];
      assert k + 1 < |rest| ==> rest[k + 1] == spans[k + 2];
    }
  }

  lemma {:induction false} TilesStayInRange(spans: seq<Span>, n: nat)
    requires Tiles(spans, n)
    ensures InRange(spans, n)
  {
    if spans != [] {
      TilesTail(spans, n);
      TilesStayInRange(spans[1..], n);
      if |spans| > 1 {
        assert spans[1] in spans[1..];
      }
      forall s | s in spans ensures s.pos + s.len <= n {
        assert s == spans[0] || s in spans[1..];
      }
    }
  }

  /** No token after the first delimiter is lost or repeated. */
  lemma {:induction false} SpansKeepTheTokens(tokens: seq<Token>, spans: seq<Span>)
    requires Tiles(spans, |tokens|)
    ensures InRange(spans, |tokens|)
    ensures spans != [] ==> spans[0].pos <= |tokens| && Texts(tokens, spans) == tokens[spans[0].pos..]
    decreases |spans|
  {
    TilesStayInRange(spans, |tokens|);
    if spans != [] {
      var rest := spans[1..];
      TilesTail(spans, |tokens|);
      SpansKeepTheTokens(tokens, rest);
      var next := spans[0].pos + spans[0].len;
      assert spans[0] in spans;
      assert next == StartAfter(spans, |tokens|, 0);
      assert rest == [] ==> next == |tokens|;
      assert Texts(tokens, rest) == tokens[next..];
      assert tokens[spans[0].pos..] == tokens[spans[0].pos..next] + tokens[next..];
    }
  }

  // ----- Looking spans up -----------------------------------------------------

  const TWO_TO_31 := 0x8000_0000

  /** The source's conversion of a position to a 32-bit signed integer. */
  function ToInt32(n: nat): (r: int)
    ensures -TWO_TO_31 <= r < TWO_TO_31 && (n < TWO_TO_31 ==> r == n)
  {
    (n + TWO_TO_31) % (2 * TWO_TO_31) - TWO_TO_31
  }

  /** The spans of a prompt, grown one at a time. */
  class Spans {
    var spans: seq<Span>

    constructor ()
      ensures spans == []
    {
      spans := [];
    }

    method Add(role: Role, pos: nat, len: nat)
      modifies this
      ensures spans == old(spans) + [Span(role, pos, len)]
    {
      spans := spans + [Span(role, pos, len)];
    }

    method IsUserStart(pos: int) returns (r: bool)
      ensures r <==> exists k :: 0 <= k < |spans| && spans[k].role == User && ToInt32(spans[k].pos) == pos
    {
      for k := 0 to |spans|
        invariant forall j :: 0 <= j < k ==> !(spans[j].role == User && ToInt32(spans[j].pos) == pos)
      {
        if spans[k].role == User && pos == ToInt32(spans[k].pos) {
          return true;
        }
      }
      return false;
    }

    method LastUserMessagePos() returns (r: int)
      ensures (exists k :: IsLastUser(spans, k) && r == ToInt32(spans[k].pos))
              || (r == -1 && forall k :: 0 <= k < |spans| ==> spans[k].role != User)
    {
      for k := |spans| downto 0
        invariant forall j :: k <= j < |spans| ==> spans[j].role != User
      {
        if spans[k].role == User {
          assert IsLastUser(spans, k);
          return ToInt32(spans[k].pos);
        }
      }
      return -1;
    }
  }

  predicate IsLastUser(spans: seq<Span>, k: int) {
    0 <= k < |spans| && spans[k].role == User && forall j :: k < j < |spans| ==> spans[j].role != User
  }

  lemma {:induction false} TilesAscend(spans: seq<Span>, n: nat, j: nat, k: nat)
    requires Tiles(spans, n) && j < k < |spans|
    ensures spans[j].pos < spans[k].pos
    decreases k
  {
    if j + 1 < k {
      TilesAscend(spans, n, j, k - 1);
    }
  }

  /** For a prompt whose positions fit 32 bits, the last user position is the greatest user start there is. */
  lemma LastUserIsGreatest(tokens: seq<Token>, ds: seq<Delimiter>, skips: seq<Skip>, k: nat, p: nat)
    requires |tokens| <= TWO_TO_31
    requires IsLastUser(Split(tokens, ds, skips), k)
    ensures
      var last := Split(tokens, ds, skips)[k].pos;
      && ToInt32(last) == last
      && Starts(tokens, ds, skips, 0, Match(User, last))
      && (Starts(tokens, ds, skips, 0, Match(User, p)) ==> p <= last)
  {
    hide Split, Matches, RoleAt, Live, Covered;
    var spans := Split(tokens, ds, skips);
    var last := spans[k];
    SpansStartExactly(tokens, ds, skips, Match(User, last.pos));
    assert spans[k].role == User && spans[k].pos == last.pos;
    if Starts(tokens, ds, skips, 0, Match(User, p)) && p > last.pos {
      SpansStartExactly(tokens, ds, skips, Match(User, p));
      var j :| 0 <= j < |spans| && spans[j].role == User && spans[j].pos == p;
      if j < k {
        TilesAscend(spans, |tokens|, j, k);
      }
    }
  }

  // ----- The loops ------------------------------------------------------------

  method FindMatches(tokens: seq<Token>, ds: seq<Delimiter>, skips: seq<Skip>) returns (ms: seq<Match>)
    ensures ms == Matches(tokens, ds, skips, 0)
  {
    ms := [];
    var i: nat, skip: nat := 0, 0;
    while i < |tokens|
      invariant skip <= |skips|
      invariant Matches(tokens, ds, skips, 0) == ms + Matches(tokens, ds, skips[skip..], i)
      decreases (if i < |tokens| then |tokens| - i else 0) + |skips| - skip
    {
      hide RoleAt;
      ghost var rest := skips[skip..];
      if skip < |skips| && i == skips[skip].start {
        assert rest[1..] == skips[skip + 1..];
        i := i + skips[skip].len;
        skip := skip + 1;
        continue;
      }
      var here := FirstRole(tokens, ds, i);
      if here.Some? {
        ms := ms + [Match(here.value, i)];
      }
      i := i + 1;
    }
  }

  method SplitSpans(tokens: seq<Token>, ds: seq<Delimiter>, skips: seq<Skip>) returns (r: Spans)
    ensures fresh(r) && r.spans == Split(tokens, ds, skips)
  {
    var ms := FindMatches(tokens, ds, skips);
    ScanAscends(tokens, ds, skips, 0);
    ghost var found := ms;
    ms := ms + [Match(Unknown, |tokens|)];
    r := new Spans();
    for k := 0 to |ms| - 1
      invariant fresh(r) && |r.spans| == k
      invariant Ascending(found, 0, |tokens|) && ms == found + [Match(Unknown, |tokens|)]
      invariant forall j :: 0 <= j < k ==> r.spans[j] == SpanAt(found, |tokens|, j)
    {
      hide Matches;
      r.Add(ms[k].role, ms[k].pos, ms[k + 1].pos - ms[k].pos);
    }
  }

  /** The inner loop over the delimiters. */
  method FirstRole(tokens: seq<Token>, ds: seq<Delimiter>, i: nat) returns (r: Option<Role>)
    ensures r == RoleAt(ds, tokens, i)
  {
    for k := 0 to |ds|
      invariant RoleAt(ds, tokens, i) == RoleAt(ds[k..], tokens, i)
    {
      ghost var rest := ds[k..];
      assert rest[1..] == ds[k + 1..];
      var d := ds[k];
      if i + |d.tokens| > |tokens| {
        continue;
      }
      if tokens[i..i + |d.tokens|] == d.tokens {
        return Some(d.role);
      }
    }
    return None;
  }
}
