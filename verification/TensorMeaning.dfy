/** What the tensor operations and the product of two factors mean, entry by entry. */
module TensorMeaning {
  import opened LowRank

  // ----- Rearranging ----------------------------------------------------------

  /** Dimension `i` of a permuted tensor is dimension `dims[i]`: every entry is found where its index is so rearranged. */
  lemma PermutedEntry(t: Tensor, dims: seq<nat>, src: seq<nat>)
    requires IsPermutation(dims) && |dims| == |t.shape| == |src|
    ensures
      var p, idx := Permute(t, dims), seq(|dims|, i requires 0 <= i < |dims| => src[dims[i]]);
      && |p.shape| == |dims| && (forall i :: 0 <= i < |dims| ==> p.shape[i] == t.shape[dims[i]])
      && p.at(idx) == t.at(src)
  {
    var idx := seq(|dims|, i requires 0 <= i < |dims| => src[dims[i]]);
    assert Unpermute(dims, idx) == src;
    hide IsPermutation;
  }

  /** Taking one position of a dimension drops it from the index. */
  lemma PickedEntry(t: Tensor, d: nat, src: seq<nat>)
    requires d < |t.shape| == |src|
    ensures Pick(t, d, src[d]).at(src[..d] + src[d + 1..]) == t.at(src)
  {
    var idx := src[..d] + src[d + 1..];
    assert idx[..d] + [src[d]] + idx[d..] == src;
  }

  /** Stacked matrices: first the rows of the one, then those of the other. */
  lemma StackedEntry(t: Tensor, u: Tensor, i: nat, j: nat)
    requires |t.shape| == |u.shape| == 2
    ensures CatRows(t, u).shape == [t.shape[0] + u.shape[0], t.shape[1]]
    ensures i < t.shape[0] ==> CatRows(t, u).at([i, j]) == t.at([i, j])
    ensures CatRows(t, u).at([t.shape[0] + i, j]) == u.at([i, j])
  {
  }

  // ----- Row-major numbers ----------------------------------------------------

  lemma BelowProduct(q: nat, k: nat, m: nat, r: nat)
    requires q < m && k < r
    ensures q * r + k < m * r
  {
    MultiplesGrow(q + 1, m, r);
    assert (q + 1) * r == q * r + r;
  }

  /** The indices of a tensor are numbered with the numbers below its size, each once. */
  lemma {:induction false} RavelIsNumbering(shape: seq<nat>, idx: seq<nat>)
    requires InBounds(shape, idx)
    ensures Ravel(shape, idx) < Prod(shape) && Unravel(shape, Ravel(shape, idx)) == idx
    decreases |shape|
  {
    if shape != [] {
      var n := |shape| - 1;
      RavelIsNumbering(shape[..n], idx[..n]);
      assert shape == shape[..n] + [shape[n]] && idx == idx[..n] + [idx[n]];
      hide Ravel, Unravel, InBounds;
      RavelLast(shape[..n], shape[n], idx[..n], idx[n]);
      UnravelLast(shape[..n], shape[n], Ravel(shape[..n], idx[..n]), idx[n]);
      BelowProduct(Ravel(shape[..n], idx[..n]), idx[n], Prod(shape[..n]), shape[n]);
    }
  }

  /** An index that is smaller where the two first differ has the smaller number. */
  lemma {:induction false} RavelIsOrdered(shape: seq<nat>, p: seq<nat>, q: seq<nat>, i: nat)
    requires InBounds(shape, p) && InBounds(shape, q) && i < |shape|
    requires p[..i] == q[..i] && p[i] < q[i]
    ensures Ravel(shape, p) < Ravel(shape, q)
    decreases |shape|
  {
    var n := |shape| - 1;
    assert shape == shape[..n] + [shape[n]] && p == p[..n] + [p[n]] && q == q[..n] + [q[n]];
    if i < n {
      assert p[..n][..i] == q[..n][..i];
      RavelIsOrdered(shape[..n], p[..n], q[..n], i);
      BelowProduct(Ravel(shape[..n], p[..n]), p[n], Ravel(shape[..n], q[..n]), shape[n]);
    }
    hide Ravel, InBounds;
    RavelLast(shape[..n], shape[n], p[..n], p[n]);
    RavelLast(shape[..n], shape[n], q[..n], q[n]);
  }

  /** Reshaping keeps every entry at its number. */
  lemma ReshapedEntry(t: Tensor, shape: seq<nat>, src: seq<nat>, idx: seq<nat>)
    requires InBounds(t.shape, src) && |idx| == |shape| && Ravel(shape, idx) == Ravel(t.shape, src)
    ensures Reshape(t, shape).shape == shape && Reshape(t, shape).at(idx) == t.at(src)
  {
    RavelIsNumbering(t.shape, src);
  }

  // ----- The product ----------------------------------------------------------

  lemma {:induction false} SumOfNothing(f: nat -> real, n: nat)
    requires forall i: nat :: i < n ==> f(i) == 0.0
    ensures Sum(f, n) == 0.0
  {
    if n > 0 {
      SumOfNothing(f, n - 1);
    }
  }

  /** A sum with one term is that term. */
  lemma {:induction false} SumOfOne(f: nat -> real, n: nat, k: nat)
    requires k < n && forall i: nat :: i < n && i != k ==> f(i) == 0.0
    ensures Sum(f, n) == f(k)
  {
    if k < n - 1 {
      SumOfOne(f, n - 1, k);
    } else {
      SumOfNothing(f, n - 1);
    }
  }

  lemma {:induction false} SumAdds(f: nat -> real, g: nat -> real, h: nat -> real, n: nat)
    requires forall i: nat :: i < n ==> h(i) == f(i) + g(i)
    ensures Sum(h, n) == Sum(f, n) + Sum(g, n)
  {
    if n > 0 {
      SumAdds(f, g, h, n - 1);
    }
  }

  /** A row of the left factor that selects one row of the right one gives that row. */
  lemma ProductOfUnitRow(l: Lora, p: seq<nat>, j: nat, k: nat)
    requires Valid(l) && |l.a.shape| >= 2 && k < Rank(l)
    requires forall i: nat :: i < Rank(l) ==> l.b.at(p + [i]) == if i == k then 1.0 else 0.0
    ensures Product(l).at(p + [j]) == l.a.at(seq(|l.a.shape| - 2, i => 0) + [k, j])
  {
    hide *;
    var f := Terms(l, p, j);
    forall i: nat | i < Rank(l) && i != k ensures f(i) == 0.0 {
      TermIs(l, p, j, i);
      Unit(l.a.at(InA(l, i, j)));
    }
    TermIs(l, p, j, k);
    Unit(l.a.at(InA(l, k, j)));
    SumOfOne(f, Rank(l), k);
    ProductAt(l, p, j);
    EntryIsSum(l, p, j);
    WhereInA(l, k, j);
  }

  lemma TermIs(l: Lora, p: seq<nat>, j: nat, k: nat)
    requires Valid(l)
    ensures Terms(l, p, j)(k) == l.b.at(p + [k]) * l.a.at(InA(l, k, j))
  {
  }

  lemma Unit(x: real)
    ensures 0.0 * x == 0.0 && 1.0 * x == x
  {
  }

  lemma EntryIsSum(l: Lora, p: seq<nat>, j: nat)
    requires Valid(l)
    ensures Entry(l, p, j) == Sum(Terms(l, p, j), Rank(l))
  {
  }

  lemma WhereInA(l: Lora, k: nat, j: nat)
    requires Valid(l)
    ensures |l.a.shape| >= 2 && InA(l, k, j) == seq(|l.a.shape| - 2, i => 0) + [k, j]
  {
  }

  /** The product is additive in the left factor; with scaling, and rows that select, this fixes it. */
  lemma ProductIsAdditive(l: Lora, m: Lora, n: Lora, p: seq<nat>, j: nat)
    requires Valid(l) && Valid(m) && Valid(n) && l.a == m.a == n.a && Rank(l) == Rank(m) == Rank(n)
    requires forall i: nat :: i < Rank(l) ==> n.b.at(p + [i]) == l.b.at(p + [i]) + m.b.at(p + [i])
    ensures Product(n).at(p + [j]) == Product(l).at(p + [j]) + Product(m).at(p + [j])
  {
    var f, g, h, r := Terms(l, p, j), Terms(m, p, j), Terms(n, p, j), Rank(l);
    forall i: nat | i < r ensures h(i) == f(i) + g(i) {
      var x := l.a.at(InA(l, i, j));
      assert InA(l, i, j) == InA(m, i, j) == InA(n, i, j);
      Distribute(l.b.at(p + [i]), m.b.at(p + [i]), x);
    }
    SumAdds(f, g, h, r);
    ProductAt(l, p, j);
    ProductAt(m, p, j);
    ProductAt(n, p, j);
    hide Product, Valid;
  }

  lemma Distribute(x: real, y: real, z: real)
    ensures (x + y) * z == x * z + y * z
  {
  }
}
