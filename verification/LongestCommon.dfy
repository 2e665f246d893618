/** The longest common substring of two strings, by a table of common endings. */
module LongestCommon {
  /** The `k` characters of `a` ending before `i` are the `k` characters of `b` ending before `j`. */
  ghost predicate EndAlike(a: string, i: nat, b: string, j: nat, k: nat) {
    k <= i <= |a| && k <= j <= |b| && a[i - k..i] == b[j - k..j]
  }

  /** What the table holds at `(i, j)`: how far `a[..i]` and `b[..j]` agree, read backwards. */
  function CommonEnd(a: string, i: nat, b: string, j: nat): nat
    requires i <= |a| && j <= |b|
    decreases i
  {
    if i == 0 || j == 0 || a[i - 1] != b[j - 1] then 0 else CommonEnd(a, i - 1, b, j - 1) + 1
  }

  /** A table entry is exactly the largest length on which the two ends agree. */
  lemma {:induction false} CommonEndIsLongest(a: string, i: nat, b: string, j: nat, k: nat)
    requires i <= |a| && j <= |b|
    ensures EndAlike(a, i, b, j, k) <==> k <= CommonEnd(a, i, b, j)
    decreases i
  {
    if i == 0 || j == 0 {
    } else if 0 < k {
      CommonEndIsLongest(a, i - 1, b, j - 1, k - 1);
      if k <= i && k <= j {
        LastCharacter(a, i, k);
        LastCharacter(b, j, k);
        assert EndAlike(a, i, b, j, k) ==> a[i - k..i][k - 1] == b[j - k..j][k - 1];
        assert EndAlike(a, i, b, j, k) ==> a[i - k..i][..k - 1] == b[j - k..j][..k - 1];
      }
    }
  }

  lemma LastCharacter(a: string, i: nat, k: nat)
    requires 0 < k <= i <= |a|
    ensures a[i - k..i] == a[i - k..i - 1] + [a[i - 1]]
  {
  }

  predicate OccursEndingAt(r: string, b: string, j: nat) {
    |r| <= j <= |b| && b[j - |r|..j] == r
  }

  ghost predicate Occurs(r: string, b: string) {
    exists j :: OccursEndingAt(r, b, j)
  }

  /** `r` is `a[e - |r|..e]` and occurs in `b`, nothing common is longer, and nothing as long ends sooner. */
  ghost predicate FirstLongestAt(a: string, b: string, r: string, e: nat) {
    && |r| <= e <= |a|
    && a[e - |r|..e] == r
    && Occurs(r, b)
    && (forall i: nat, j: nat, k: nat :: EndAlike(a, i, b, j, k) ==> k <= |r|)
    && (forall i: nat, j: nat :: i < e ==> !EndAlike(a, i, b, j, |r|))
  }

  ghost predicate FirstLongest(a: string, b: string, r: string) {
    exists e :: FirstLongestAt(a, b, r, e)
  }

  lemma OccursAsEnd(a: string, b: string, r: string, e: nat) returns (j: nat)
    requires |r| <= e <= |a| && a[e - |r|..e] == r && Occurs(r, b)
    ensures EndAlike(a, e, b, j, |r|)
  {
    j :| OccursEndingAt(r, b, j);
  }

  /** The description names one string: there is never a second answer. */
  lemma FirstLongestIsUnique(a: string, b: string, r: string, r': string)
    requires FirstLongest(a, b, r) && FirstLongest(a, b, r')
    ensures r == r'
  {
    var e :| FirstLongestAt(a, b, r, e);
    var e' :| FirstLongestAt(a, b, r', e');
    var j := OccursAsEnd(a, b, r, e);
    var j' := OccursAsEnd(a, b, r', e');
    assert |r| == |r'|;
    assert e == e';
  }

  /** Every string found in both inputs is at most as long as the answer. */
  lemma NoCommonStringIsLonger(a: string, b: string, r: string, s: string)
    requires FirstLongest(a, b, r)
    requires Occurs(s, a) && Occurs(s, b)
    ensures |s| <= |r|
  {
    var e :| FirstLongestAt(a, b, r, e);
    var i :| OccursEndingAt(s, a, i);
    var j := OccursAsEnd(a, b, s, i);
  }

  /** Which string is chosen depends on the order of the inputs; its length does not. */
  lemma LengthIsSymmetric(a: string, b: string, r: string, r': string)
    requires FirstLongest(a, b, r) && FirstLongest(b, a, r')
    ensures |r| == |r'|
  {
    var e :| FirstLongestAt(a, b, r, e);
    var e' :| FirstLongestAt(b, a, r', e');
    assert OccursEndingAt(r, a, e) && OccursEndingAt(r', b, e');
    NoCommonStringIsLonger(a, b, r, r');
    NoCommonStringIsLonger(b, a, r', r);
  }

  /** The cells visited when the loops stand after column `cols` of row `row`. */
  predicate Visited(row: nat, cols: nat, p: nat, q: nat) { p < row || (p == row && q <= cols) }

  /** The largest entry over the visited cells, and the first row that holds it. */
  ghost predicate Best(a: string, b: string, row: nat, cols: nat, len: nat, end: nat) {
    && len <= end <= |a|
    && end <= row
    && (len == 0 ==> end == 0)
    && (0 < len ==> exists j: nat :: j <= |b| && CommonEnd(a, end, b, j) == len)
    && (forall p: nat, q: nat | p <= |a| && q <= |b| && Visited(row, cols, p, q) ::
          CommonEnd(a, p, b, q) <= len && (p < end ==> CommonEnd(a, p, b, q) < len))
  }

  lemma BestAtStart(a: string, b: string)
    ensures Best(a, b, 0, |b|, 0, 0)
  {
  }

  lemma BestNextRow(a: string, b: string, row: nat, len: nat, end: nat)
    requires row < |a| && Best(a, b, row, |b|, len, end)
    ensures Best(a, b, row + 1, 0, len, end)
  {
  }

  lemma BestNextCell(a: string, b: string, row: nat, col: nat, len: nat, end: nat)
    requires row <= |a| && col < |b| && Best(a, b, row, col, len, end)
    ensures
      var here := CommonEnd(a, row, b, col + 1);
      if here > len then Best(a, b, row, col + 1, here, row) else Best(a, b, row, col + 1, len, end)
  {
    var here := CommonEnd(a, row, b, col + 1);
    CommonEndIsLongest(a, row, b, col + 1, here);
  }

  lemma BestIsFirstLongest(a: string, b: string, len: nat, end: nat)
    requires Best(a, b, |a|, |b|, len, end)
    ensures FirstLongestAt(a, b, a[end - len..end], end)
  {
    var r := a[end - len..end];
    BestOccurs(a, b, len, end);
    forall i: nat, j: nat, k: nat | EndAlike(a, i, b, j, k) ensures k <= len && (i < end ==> k < len) {
      CommonEndIsLongest(a, i, b, j, k);
      assert Visited(|a|, |b|, i, j);
    }
  }

  lemma BestOccurs(a: string, b: string, len: nat, end: nat)
    requires Best(a, b, |a|, |b|, len, end)
    ensures Occurs(a[end - len..end], b)
  {
    if len == 0 {
      assert OccursEndingAt([], b, 0);
    } else {
      var j: nat :| j <= |b| && CommonEnd(a, end, b, j) == len;
      CommonEndIsLongest(a, end, b, j, len);
      assert OccursEndingAt(a[end - len..end], b, j);
    }
  }

  /** The table holds the common endings of the visited cells, and zeros elsewhere. */
  ghost predicate Filled(dp: array2<nat>, a: string, b: string, row: nat, cols: nat)
    reads dp
  {
    && dp.Length0 == |a| + 1 && dp.Length1 == |b| + 1
    && forall p: nat, q: nat | p <= |a| && q <= |b| ::
         dp[p, q] == if Visited(row, cols, p, q) then CommonEnd(a, p, b, q) else 0
  }

  method StringLcs(a: string, b: string) returns (r: string)
    ensures FirstLongest(a, b, r)
  {
    if a == "" || b == "" {
      assert OccursEndingAt([], b, 0);
      assert FirstLongestAt(a, b, "", 0);
      return "";
    }
    var dp := new nat[|a| + 1, |b| + 1]((_, _) => 0);
    var len: nat, end: nat := 0, 0;
    BestAtStart(a, b);
    for i := 1 to |a| + 1
      invariant Filled(dp, a, b, i - 1, |b|)
      invariant Best(a, b, i - 1, |b|, len, end)
    {
      hide Best, FirstLongest, Filled;
      BestNextRow(a, b, i - 1, len, end);
      len, end := FillRow(dp, a, b, i, len, end);
    }
    BestIsFirstLongest(a, b, len, end);
    r := a[end - len..end];
  }

  /** The inner loop: one row of the table, and the largest entry so far. */
  method FillRow(dp: array2<nat>, a: string, b: string, i: nat, len: nat, end: nat) returns (len': nat, end': nat)
    requires 0 < i <= |a| && Filled(dp, a, b, i - 1, |b|) && Best(a, b, i, 0, len, end)
    modifies dp
    ensures Filled(dp, a, b, i, |b|) && Best(a, b, i, |b|, len', end')
  {
    hide Best;
    len', end' := len, end;
    for j := 1 to |b| + 1
      invariant Filled(dp, a, b, i, j - 1)
      invariant Best(a, b, i, j - 1, len', end')
    {
      BestNextCell(a, b, i, j - 1, len', end');
      if a[i - 1] == b[j - 1] {
        dp[i, j] := dp[i - 1, j - 1] + 1;
        if dp[i, j] > len' {
          len' := dp[i, j];
          end' := i;
        }
      }
    }
  }
}
