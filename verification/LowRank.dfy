/**
 Tensors kept as a low-rank product: every operation works on the two factors, and
 the product of the resulting factors is the operation applied to the product.
 */
module LowRank {

  // ----- Tensors --------------------------------------------------------------

  /** A tensor is its shape and an entry for every index within it. */
  datatype Tensor = Tensor(shape: seq<nat>, at: seq<nat> -> real)

  predicate InBounds(shape: seq<nat>, idx: seq<nat>) {
    |idx| == |shape| && forall i :: 0 <= i < |idx| ==> idx[i] < shape[i]
  }

  /** Same shape and same entries. */
  ghost predicate Same(t: Tensor, u: Tensor) {
    t.shape == u.shape && forall idx :: InBounds(t.shape, idx) ==> t.at(idx) == u.at(idx)
  }

  function Prod(shape: seq<nat>): nat {
    if shape == [] then 1 else Prod(shape[..|shape| - 1]) * shape[|shape| - 1]
  }

  /** The entries a list of positions selects along one dimension. */
  function Take(t: Tensor, d: nat, picks: seq<nat>): Tensor
    requires d < |t.shape|
  {
    Tensor(t.shape[d := |picks|],
           (idx: seq<nat>) => if d < |idx| && idx[d] < |picks| then t.at(idx[d := picks[idx[d]]]) else 0.0)
  }

  /** The entries at one position of a dimension, which disappears. */
  function Pick(t: Tensor, d: nat, j: nat): Tensor
    requires d < |t.shape|
  {
    Tensor(t.shape[..d] + t.shape[d + 1..],
           (idx: seq<nat>) => if d <= |idx| then t.at(idx[..d] + [j] + idx[d..]) else 0.0)
  }

  /** `dims` lists every dimension once. */
  predicate IsPermutation(dims: seq<nat>) {
    (forall i :: 0 <= i < |dims| ==> dims[i] < |dims|) && (forall i, j :: 0 <= i < j < |dims| ==> dims[i] != dims[j])
    && forall d :: 0 <= d < |dims| ==> d in dims
  }

  function Position(dims: seq<nat>, d: nat): (i: nat)
    requires d in dims
    ensures i < |dims| && dims[i] == d
  {
    if dims[0] == d then 0 else 1 + Position(dims[1..], d)
  }

  /** Dimension `i` of the result is dimension `dims[i]` of the argument. */
  function Permute(t: Tensor, dims: seq<nat>): Tensor
    requires IsPermutation(dims) && |dims| == |t.shape|
  {
    Tensor(seq(|dims|, i requires 0 <= i < |dims| => t.shape[dims[i]]),
           (idx: seq<nat>) => if |idx| == |dims| then t.at(Unpermute(dims, idx)) else 0.0)
  }

  function Unpermute(dims: seq<nat>, idx: seq<nat>): (r: seq<nat>)
    requires IsPermutation(dims) && |idx| == |dims|
    ensures |r| == |idx| && forall d :: 0 <= d < |r| ==> r[d] == idx[Position(dims, d)]
  {
    seq(|dims|, d requires 0 <= d < |dims| => idx[Position(dims, d)])
  }

  /** The row-major number of an index. */
  function Ravel(shape: seq<nat>, idx: seq<nat>): nat
    requires |idx| == |shape|
  {
    if shape == [] then 0
    else
      var n := |shape| - 1;
      Ravel(shape[..n], idx[..n]) * shape[n] + idx[n]
  }

  /** The index with a given row-major number. */
  function Unravel(shape: seq<nat>, m: nat): (idx: seq<nat>)
    ensures |idx| == |shape|
  {
    if shape == [] then []
    else
      var n := |shape| - 1;
      if shape[n] == 0 then Unravel(shape[..n], 0) + [0] else Unravel(shape[..n], m / shape[n]) + [m % shape[n]]
  }

  function Reshape(t: Tensor, shape: seq<nat>): Tensor {
    Tensor(shape, (idx: seq<nat>) => if |idx| == |shape| then t.at(Unravel(t.shape, Ravel(shape, idx))) else 0.0)
  }

  function Scale(t: Tensor, c: real): Tensor {
    Tensor(t.shape, (idx: seq<nat>) => c * t.at(idx))
  }

  /** Multiplies by a tensor whose last dimension has size one. */
  function ScaleRows(t: Tensor, factor: seq<nat> -> real): Tensor {
    Tensor(t.shape, (idx: seq<nat>) => if idx == [] then 0.0 else factor(idx[..|idx| - 1]) * t.at(idx))
  }

  /** The rows of the second matrix below those of the first. */
  function CatRows(t: Tensor, u: Tensor): Tensor
    requires |t.shape| == |u.shape| == 2
  {
    Tensor([t.shape[0] + u.shape[0], t.shape[1]],
           (idx: seq<nat>) => if |idx| != 2 then 0.0
                  else if idx[0] < t.shape[0] then t.at(idx) else u.at([idx[0] - t.shape[0], idx[1]]))
  }

  // ----- Sums -----------------------------------------------------------------

  function Sum(f: nat -> real, n: nat): real {
    if n == 0 then 0.0 else Sum(f, n - 1) + f(n - 1)
  }

  lemma {:induction false} SumsEqual(f: nat -> real, g: nat -> real, n: nat)
    requires forall k: nat :: k < n ==> f(k) == g(k)
    ensures Sum(f, n) == Sum(g, n)
  {
    if n > 0 {
      SumsEqual(f, g, n - 1);
    }
  }

  lemma {:induction false} SumScales(f: nat -> real, g: nat -> real, c: real, n: nat)
    requires forall k: nat :: k < n ==> g(k) == c * f(k)
    ensures Sum(g, n) == c * Sum(f, n)
  {
    if n > 0 {
      SumScales(f, g, c, n - 1);
    }
  }

  // ----- Low-rank tensors -----------------------------------------------------

  /** `b` is (..., rows, rank) and `a` is (1, ..., 1, rank, columns). */
  datatype Lora = Lora(a: Tensor, b: Tensor)

  predicate AllOnes(shape: seq<nat>) {
    forall i :: 0 <= i < |shape| ==> shape[i] == 1
  }

  predicate Valid(l: Lora) {
    var n := |l.b.shape|;
    && n >= 2 && |l.a.shape| == n
    && l.a.shape[n - 2] == l.b.shape[n - 1]
    && AllOnes(l.a.shape[..n - 2])
  }

  function Rank(l: Lora): nat
    requires Valid(l)
  {
    l.b.shape[|l.b.shape| - 1]
  }

  function Shape(l: Lora): seq<nat>
    requires Valid(l)
  {
    var n := |l.b.shape|;
    l.b.shape[..n - 1] + [l.a.shape[n - 1]]
  }

  function Zeros(n: nat): (z: seq<nat>)
    ensures |z| == n && forall i :: 0 <= i < n ==> z[i] == 0
  {
    seq(n, i => 0)
  }

  /** The index of row `k`, column `j` of the one matrix in `a`. */
  function InA(l: Lora, k: nat, j: nat): (idx: seq<nat>)
    requires Valid(l)
    ensures |idx| == |l.a.shape|
  {
    Zeros(|l.a.shape| - 2) + [k, j]
  }

  /** The terms of the matrix product at row index `p` of `b` and column `j` of `a`. */
  function Terms(l: Lora, p: seq<nat>, j: nat): nat -> real
    requires Valid(l)
  {
    (k: nat) => l.b.at(p + [k]) * l.a.at(InA(l, k, j))
  }

  function Entry(l: Lora, p: seq<nat>, j: nat): real
    requires Valid(l)
  {
    Sum(Terms(l, p, j), Rank(l))
  }

  function Front(idx: seq<nat>): seq<nat>
    requires idx != []
  {
    idx[..|idx| - 1]
  }

  function Last(idx: seq<nat>): nat
    requires idx != []
  {
    idx[|idx| - 1]
  }

  /** The tensor the factors stand for. */
  function Product(l: Lora): Tensor
    requires Valid(l)
  {
    Tensor(Shape(l), (idx: seq<nat>) => if idx == [] then 0.0 else Entry(l, Front(idx), Last(idx)))
  }

  /** Entries agree when the factors agree term by term. */
  lemma EntriesEqual(l: Lora, p: seq<nat>, j: nat, m: Lora, q: seq<nat>, i: nat)
    requires Valid(l) && Valid(m) && Rank(l) == Rank(m)
    requires forall k: nat :: k < Rank(l) ==> l.b.at(p + [k]) == m.b.at(q + [k])
    requires forall k: nat :: k < Rank(l) ==> l.a.at(InA(l, k, j)) == m.a.at(InA(m, k, i))
    ensures Entry(l, p, j) == Entry(m, q, i)
  {
    SumsEqual(Terms(l, p, j), Terms(m, q, i), Rank(l));
  }

  /** The product's entry at a row index and a column. */
  lemma ProductAt(l: Lora, p: seq<nat>, j: nat)
    requires Valid(l)
    ensures Product(l).at(p + [j]) == Entry(l, p, j)
  {
    hide Entry;
    assert Front(p + [j]) == p && Last(p + [j]) == j;
  }

  /** A tensor with the product's shape and entries is the product. */
  lemma IsProduct(m: Lora, t: Tensor)
    requires Valid(m) && Shape(m) == t.shape
    requires forall p, j :: InBounds(Shape(m), p + [j]) ==> Entry(m, p, j) == t.at(p + [j])
    ensures Same(Product(m), t)
  {
    hide Entry;
    forall idx | InBounds(Shape(m), idx) ensures Product(m).at(idx) == t.at(idx) {
      assert idx == Front(idx) + [Last(idx)];
      ProductAt(m, Front(idx), Last(idx));
    }
  }

  // ----- Slices ---------------------------------------------------------------

  /** Columns are selected in `a`, everything else in `b`. */
  function TakeLora(l: Lora, d: nat, picks: seq<nat>): Lora
    requires Valid(l) && d < |l.b.shape|
  {
    if d == |l.b.shape| - 1 then Lora(Take(l.a, d, picks), l.b) else Lora(l.a, Take(l.b, d, picks))
  }

  lemma TakeValid(l: Lora, d: nat, picks: seq<nat>)
    requires Valid(l) && d < |l.b.shape|
    ensures Valid(TakeLora(l, d, picks)) && Rank(TakeLora(l, d, picks)) == Rank(l)
    ensures Shape(TakeLora(l, d, picks)) == Shape(l)[d := |picks|]
  {
  }

  lemma TakeColumnsEntry(l: Lora, picks: seq<nat>, p: seq<nat>, j: nat)
    requires Valid(l) && j < |picks|
    ensures var d := |l.b.shape| - 1;
            (TakeValid(l, d, picks); Entry(TakeLora(l, d, picks), p, j) == Entry(l, p, picks[j]))
  {
    var d := |l.b.shape| - 1;
    TakeValid(l, d, picks);
    var m := TakeLora(l, d, picks);
    forall k: nat | k < Rank(l) ensures m.a.at(InA(m, k, j)) == l.a.at(InA(l, k, picks[j])) {
      assert InA(m, k, j)[d := picks[j]] == InA(l, k, picks[j]);
    }
    EntriesEqual(m, p, j, l, p, picks[j]);
  }

  lemma TakeOthersEntry(l: Lora, d: nat, picks: seq<nat>, p: seq<nat>, j: nat)
    requires Valid(l) && d < |p| == |l.b.shape| - 1 && p[d] < |picks|
    ensures (TakeValid(l, d, picks); Entry(TakeLora(l, d, picks), p, j) == Entry(l, p[d := picks[p[d]]], j))
  {
    TakeValid(l, d, picks);
    var m, q := TakeLora(l, d, picks), p[d := picks[p[d]]];
    forall k: nat | k < Rank(l) ensures m.b.at(p + [k]) == l.b.at(q + [k]) {
      assert (p + [k])[d := picks[(p + [k])[d]]] == q + [k];
    }
    assert forall k: nat :: InA(m, k, j) == InA(l, k, j);
    EntriesEqual(m, p, j, l, q, j);
  }

  lemma TakeProduct(l: Lora, d: nat, picks: seq<nat>)
    requires Valid(l) && d < |l.b.shape|
    ensures (TakeValid(l, d, picks); Same(Product(TakeLora(l, d, picks)), Take(Product(l), d, picks)))
  {
    hide Entry, InBounds;
    TakeValid(l, d, picks);
    var m, t := TakeLora(l, d, picks), Take(Product(l), d, picks);
    forall p, j | InBounds(Shape(m), p + [j]) ensures Entry(m, p, j) == t.at(p + [j]) {
      TakeAt(l, m, d, picks, p, j);
    }
    hide TakeLora, Take, Product;
    IsProduct(m, t);
  }

  lemma TakeAt(l: Lora, m: Lora, d: nat, picks: seq<nat>, p: seq<nat>, j: nat)
    requires Valid(l) && d < |l.b.shape| && m == TakeLora(l, d, picks) && Valid(m)
    requires InBounds(Shape(m), p + [j])
    ensures Entry(m, p, j) == Take(Product(l), d, picks).at(p + [j])
  {
    hide Entry, Product;
    TakeValid(l, d, picks);
    var n := |l.b.shape| - 1;
    assert |p| == n && (p + [j])[n] == j;
    if d == n {
      assert (p + [j])[d] == j < |picks|;
      TakeColumnsEntry(l, picks, p, j);
      assert (p + [j])[d := picks[j]] == p + [picks[j]];
      ProductAt(l, p, picks[j]);
    } else {
      assert (p + [j])[d] == p[d] < |picks|;
      TakeOthersEntry(l, d, picks, p, j);
      assert (p + [j])[d := picks[p[d]]] == p[d := picks[p[d]]] + [j];
      ProductAt(l, p[d := picks[p[d]]], j);
    }
  }

  /** One position of a leading dimension: `a` has only position 0 there. */
  function PickLora(l: Lora, d: nat, j: nat): Lora
    requires Valid(l) && d + 2 < |l.b.shape|
  {
    Lora(Pick(l.a, d, 0), Pick(l.b, d, j))
  }

  lemma PickValid(l: Lora, d: nat, j: nat)
    requires Valid(l) && d + 2 < |l.b.shape|
    ensures Valid(PickLora(l, d, j)) && Rank(PickLora(l, d, j)) == Rank(l)
    ensures Shape(PickLora(l, d, j)) == Shape(l)[..d] + Shape(l)[d + 1..]
  {
  }

  lemma PickEntry(l: Lora, d: nat, i: nat, p: seq<nat>, j: nat)
    requires Valid(l) && d + 2 < |l.b.shape| && |p| == |l.b.shape| - 2
    ensures (PickValid(l, d, i); Entry(PickLora(l, d, i), p, j) == Entry(l, p[..d] + [i] + p[d..], j))
  {
    PickValid(l, d, i);
    var m, q := PickLora(l, d, i), p[..d] + [i] + p[d..];
    forall k: nat | k < Rank(l) ensures m.b.at(p + [k]) == l.b.at(q + [k]) {
      assert (p + [k])[..d] + [i] + (p + [k])[d..] == q + [k];
    }
    forall k: nat | k < Rank(l) ensures m.a.at(InA(m, k, j)) == l.a.at(InA(l, k, j)) {
      var x := InA(m, k, j);
      assert x[..d] + [0] + x[d..] == InA(l, k, j);
    }
    EntriesEqual(m, p, j, l, q, j);
  }

  lemma PickProduct(l: Lora, d: nat, i: nat)
    requires Valid(l) && d + 2 < |l.b.shape|
    ensures (PickValid(l, d, i); Same(Product(PickLora(l, d, i)), Pick(Product(l), d, i)))
  {
    hide Entry, InBounds;
    PickValid(l, d, i);
    var m, t := PickLora(l, d, i), Pick(Product(l), d, i);
    forall p, j | InBounds(Shape(m), p + [j]) ensures Entry(m, p, j) == t.at(p + [j]) {
      PickAt(l, m, d, i, p, j);
    }
    hide PickLora, Pick, Product;
    IsProduct(m, t);
  }

  lemma PickAt(l: Lora, m: Lora, d: nat, i: nat, p: seq<nat>, j: nat)
    requires Valid(l) && d + 2 < |l.b.shape| && m == PickLora(l, d, i) && Valid(m)
    requires InBounds(Shape(m), p + [j])
    ensures Entry(m, p, j) == Pick(Product(l), d, i).at(p + [j])
  {
    hide Entry, Product;
    assert |p| == |l.b.shape| - 2;
    PickEntry(l, d, i, p, j);
    var q := p[..d] + [i] + p[d..];
    assert (p + [j])[..d] + [i] + (p + [j])[d..] == q + [j];
    ProductAt(l, q, j);
  }

  // ----- Permutations ---------------------------------------------------------

  /** Permuting all but the columns touches `b` only. */
  function PermuteLora(l: Lora, dims: seq<nat>): Lora
    requires Valid(l) && IsPermutation(dims) && |dims| == |l.b.shape|
  {
    Lora(l.a, Permute(l.b, dims))
  }

  /** The permutation keeps the last dimension in place. */
  predicate KeepsLast(dims: seq<nat>) {
    IsPermutation(dims) && dims != [] && Last(dims) == |dims| - 1
  }

  lemma PermuteValid(l: Lora, dims: seq<nat>)
    requires Valid(l) && KeepsLast(dims) && |dims| == |l.b.shape|
    ensures Valid(PermuteLora(l, dims)) && Rank(PermuteLora(l, dims)) == Rank(l)
    ensures Shape(PermuteLora(l, dims)) == Permute(Product(l), dims).shape
  {
    hide Product;
    var n := |dims| - 1;
    assert forall i :: 0 <= i < n ==> dims[i] != dims[n];
    assert Product(l).shape == Shape(l) by { ProductShape(l); }
  }

  lemma ProductShape(l: Lora)
    requires Valid(l)
    ensures Product(l).shape == Shape(l)
  {
  }

  /** The last component of a permuted index stays last. */
  lemma UnpermuteLast(dims: seq<nat>, p: seq<nat>, k: nat)
    requires KeepsLast(dims) && |p| == |dims| - 1
    ensures Unpermute(dims, p + [k]) == Unpermute(dims, p + [0])[..|p|] + [k]
  {
    var n := |p|;
    assert Position(dims, n) == n;
    forall d | 0 <= d < n ensures Unpermute(dims, p + [k])[d] == Unpermute(dims, p + [0])[d] {
      assert Position(dims, d) != n;
    }
  }

  lemma PermuteEntry(l: Lora, dims: seq<nat>, p: seq<nat>, j: nat)
    requires Valid(l) && KeepsLast(dims) && |dims| == |l.b.shape| == |p| + 1
    ensures (PermuteValid(l, dims); Entry(PermuteLora(l, dims), p, j) == Entry(l, Unpermute(dims, p + [0])[..|p|], j))
  {
    hide IsPermutation;
    PermuteValid(l, dims);
    var m, q := PermuteLora(l, dims), Unpermute(dims, p + [0])[..|p|];
    forall k: nat | k < Rank(l) ensures m.b.at(p + [k]) == l.b.at(q + [k]) {
      UnpermuteLast(dims, p, k);
    }
    assert forall k: nat :: InA(m, k, j) == InA(l, k, j);
    EntriesEqual(m, p, j, l, q, j);
  }

  lemma PermuteProduct(l: Lora, dims: seq<nat>)
    requires Valid(l) && KeepsLast(dims) && |dims| == |l.b.shape|
    ensures (PermuteValid(l, dims); Same(Product(PermuteLora(l, dims)), Permute(Product(l), dims)))
  {
    hide Entry, InBounds, IsPermutation;
    PermuteValid(l, dims);
    var m, t := PermuteLora(l, dims), Permute(Product(l), dims);
    forall p, j | InBounds(Shape(m), p + [j]) ensures Entry(m, p, j) == t.at(p + [j]) {
      PermuteAt(l, m, dims, p, j);
    }
    hide PermuteLora, Permute, Product;
    IsProduct(m, t);
  }

  lemma PermuteAt(l: Lora, m: Lora, dims: seq<nat>, p: seq<nat>, j: nat)
    requires Valid(l) && KeepsLast(dims) && |dims| == |l.b.shape| && m == PermuteLora(l, dims) && Valid(m)
    requires InBounds(Shape(m), p + [j])
    ensures Entry(m, p, j) == Permute(Product(l), dims).at(p + [j])
  {
    hide Entry, Product, IsPermutation;
    assert |p| == |dims| - 1;
    PermuteEntry(l, dims, p, j);
    UnpermuteLast(dims, p, j);
    ProductAt(l, Unpermute(dims, p + [0])[..|p|], j);
  }

  const SWAP: seq<nat> := [1, 0]

  /** Transposing a matrix swaps and transposes the factors. */
  function TransposeLora(l: Lora): Lora
    requires Valid(l) && |l.b.shape| == 2
  {
    SwapIsPermutation();
    Lora(Permute(l.b, SWAP), Permute(l.a, SWAP))
  }

  lemma SwapIsPermutation()
    ensures IsPermutation(SWAP) && Position(SWAP, 0) == 1 && Position(SWAP, 1) == 0
  {
    assert SWAP[0] == 1 && SWAP[1] == 0;
  }

  function Transposed(t: Tensor): Tensor
    requires |t.shape| == 2
  {
    SwapIsPermutation();
    Permute(t, SWAP)
  }

  lemma TransposedAt(t: Tensor, i: nat, j: nat)
    requires |t.shape| == 2
    ensures Transposed(t).shape == [t.shape[1], t.shape[0]]
    ensures Transposed(t).at([i, j]) == t.at([j, i])
  {
    SwapIsPermutation();
    hide IsPermutation;
    assert Unpermute(SWAP, [i, j]) == [j, i];
  }

  lemma TransposeValid(l: Lora)
    requires Valid(l) && |l.b.shape| == 2
    ensures TransposeLora(l) == Lora(Transposed(l.b), Transposed(l.a))
    ensures Valid(TransposeLora(l)) && Rank(TransposeLora(l)) == Rank(l)
    ensures Shape(TransposeLora(l)) == [Shape(l)[1], Shape(l)[0]]
  {
    TransposedAt(l.a, 0, 0);
    TransposedAt(l.b, 0, 0);
    hide Permute;
  }

  lemma TransposeEntry(l: Lora, i: nat, j: nat)
    requires Valid(l) && |l.b.shape| == 2
    ensures (TransposeValid(l); Entry(TransposeLora(l), [i], j) == Entry(l, [j], i))
  {
    TransposeValid(l);
    hide TransposeLora, Transposed;
    var m := TransposeLora(l);
    var f, g := Terms(m, [i], j), Terms(l, [j], i);
    forall k: nat | k < Rank(l) ensures f(k) == g(k) {
      TransposedAt(l.a, i, k);
      TransposedAt(l.b, k, j);
      assert [i] + [k] == [i, k] && [j] + [k] == [j, k];
      assert InA(m, k, j) == [k, j] && InA(l, k, i) == [k, i];
      Commute(l.a.at([k, i]), l.b.at([j, k]));
    }
    SumsEqual(f, g, Rank(l));
  }

  lemma Commute(x: real, y: real)
    ensures x * y == y * x
  {
  }

  lemma Associate(x: real, y: real, z: real)
    ensures (x * y) * z == x * (y * z)
  {
  }

  lemma TransposeProduct(l: Lora)
    requires Valid(l) && |l.b.shape| == 2
    ensures (TransposeValid(l); Same(Product(TransposeLora(l)), Transposed(Product(l))))
  {
    hide Entry, InBounds, TransposeLora, Transposed;
    TransposeValid(l);
    var m, t := TransposeLora(l), Transposed(Product(l));
    TransposedAt(Product(l), 0, 0);
    forall p, j | InBounds(Shape(m), p + [j]) ensures Entry(m, p, j) == t.at(p + [j]) {
      OneRow(Shape(m), p, j);
      var i := p[0];
      TransposeEntry(l, i, j);
      TransposedAt(Product(l), i, j);
      assert [j] + [i] == [j, i] && p + [j] == [i, j];
      ProductAt(l, [j], i);
    }
    hide Product;
    IsProduct(m, t);
  }

  lemma OneRow(shape: seq<nat>, p: seq<nat>, j: nat)
    requires |shape| == 2 && InBounds(shape, p + [j])
    ensures p == [p[0]] && p[0] < shape[0] && j < shape[1]
  {
    assert |p| == 1 && (p + [j])[0] == p[0] && (p + [j])[1] == j;
  }

  // ----- Scaling --------------------------------------------------------------

  function ScaleLora(l: Lora, c: real): Lora {
    Lora(l.a, Scale(l.b, c))
  }

  lemma ScaleEntry(l: Lora, c: real, p: seq<nat>, j: nat)
    requires Valid(l)
    ensures Valid(ScaleLora(l, c)) && Entry(ScaleLora(l, c), p, j) == c * Entry(l, p, j)
  {
    hide Sum;
    var m := ScaleLora(l, c);
    var f, g := Terms(l, p, j), Terms(m, p, j);
    forall k: nat | k < Rank(l) ensures g(k) == c * f(k) {
      assert InA(m, k, j) == InA(l, k, j);
      Associate(c, l.b.at(p + [k]), l.a.at(InA(l, k, j)));
    }
    SumScales(f, g, c, Rank(l));
  }

  lemma ScaleProduct(l: Lora, c: real)
    requires Valid(l)
    ensures Valid(ScaleLora(l, c)) && Same(Product(ScaleLora(l, c)), Scale(Product(l), c))
  {
    hide Product, Entry, InBounds;
    ProductShape(l);
    var m, t := ScaleLora(l, c), Scale(Product(l), c);
    forall p, j | InBounds(Shape(m), p + [j]) ensures Entry(m, p, j) == t.at(p + [j]) {
      ScaleEntry(l, c, p, j);
      ProductAt(l, p, j);
    }
    IsProduct(m, t);
  }

  /** Multiplying by a tensor with one column multiplies the rows of `b`. */
  function ScaleRowsLora(l: Lora, factor: seq<nat> -> real): Lora {
    Lora(l.a, ScaleRows(l.b, factor))
  }

  lemma ScaleRowsEntry(l: Lora, factor: seq<nat> -> real, p: seq<nat>, j: nat)
    requires Valid(l)
    ensures Valid(ScaleRowsLora(l, factor)) && Entry(ScaleRowsLora(l, factor), p, j) == factor(p) * Entry(l, p, j)
  {
    hide Sum;
    var m := ScaleRowsLora(l, factor);
    var f, g := Terms(l, p, j), Terms(m, p, j);
    forall k: nat | k < Rank(l) ensures g(k) == factor(p) * f(k) {
      assert InA(m, k, j) == InA(l, k, j);
      assert (p + [k])[..|p + [k]| - 1] == p;
      Associate(factor(p), l.b.at(p + [k]), l.a.at(InA(l, k, j)));
    }
    SumScales(f, g, factor(p), Rank(l));
  }

  lemma ScaleRowsProduct(l: Lora, factor: seq<nat> -> real)
    requires Valid(l)
    ensures Valid(ScaleRowsLora(l, factor)) && Same(Product(ScaleRowsLora(l, factor)), ScaleRows(Product(l), factor))
  {
    hide Product, Entry, InBounds;
    ProductShape(l);
    var m, t := ScaleRowsLora(l, factor), ScaleRows(Product(l), factor);
    forall p, j | InBounds(Shape(m), p + [j]) ensures Entry(m, p, j) == t.at(p + [j]) {
      ScaleRowsEntry(l, factor, p, j);
      ProductAt(l, p, j);
      assert (p + [j])[..|p + [j]| - 1] == p;
    }
    IsProduct(m, t);
  }

  // ----- Concatenation --------------------------------------------------------

  /** Matrices that share `a` are stacked by stacking `b`. */
  function CatLora(l: Lora, m: Lora): Lora
    requires Valid(l) && Valid(m) && |l.b.shape| == |m.b.shape| == 2
  {
    Lora(l.a, CatRows(l.b, m.b))
  }

  lemma CatEntry(l: Lora, m: Lora, i: nat, j: nat)
    requires Valid(l) && Valid(m) && |l.b.shape| == |m.b.shape| == 2 && Same(l.a, m.a) && j < l.a.shape[1]
    ensures Entry(CatLora(l, m), [i], j)
         == if i < l.b.shape[0] then Entry(l, [i], j) else Entry(m, [i - l.b.shape[0]], j)
  {
    var c := CatLora(l, m);
    if i < l.b.shape[0] {
      forall k: nat | k < Rank(l) ensures c.b.at([i] + [k]) == l.b.at([i] + [k]) {
        assert [i] + [k] == [i, k];
      }
      assert forall k: nat :: InA(c, k, j) == InA(l, k, j);
      EntriesEqual(c, [i], j, l, [i], j);
    } else {
      var i' := i - l.b.shape[0];
      forall k: nat | k < Rank(m) ensures c.b.at([i] + [k]) == m.b.at([i'] + [k]) {
        assert [i] + [k] == [i, k] && [i'] + [k] == [i', k];
      }
      forall k: nat | k < Rank(m) ensures c.a.at(InA(c, k, j)) == m.a.at(InA(m, k, j)) {
        assert InA(m, k, j) == InA(c, k, j) == [k, j];
        assert InBounds(l.a.shape, [k, j]);
      }
      EntriesEqual(c, [i], j, m, [i'], j);
    }
  }

  lemma CatProduct(l: Lora, m: Lora)
    requires Valid(l) && Valid(m) && |l.b.shape| == |m.b.shape| == 2 && Same(l.a, m.a)
    ensures Valid(CatLora(l, m)) && Same(Product(CatLora(l, m)), CatRows(Product(l), Product(m)))
  {
    hide Entry, InBounds, Product;
    ProductShape(l);
    ProductShape(m);
    var c, t := CatLora(l, m), CatRows(Product(l), Product(m));
    forall p, j | InBounds(Shape(c), p + [j]) ensures Entry(c, p, j) == t.at(p + [j]) {
      OneRow(Shape(c), p, j);
      var i := p[0];
      assert p + [j] == [i, j];
      CatEntry(l, m, i, j);
      if i < l.b.shape[0] {
        assert [i] + [j] == [i, j];
        ProductAt(l, [i], j);
      } else {
        assert [i - l.b.shape[0]] + [j] == [i - l.b.shape[0], j];
        ProductAt(m, [i - l.b.shape[0]], j);
      }
    }
    IsProduct(c, t);
  }

  // ----- Reshaping ------------------------------------------------------------

  function Ones(n: nat): (s: seq<nat>)
    ensures |s| == n && AllOnes(s)
  {
    seq(n, i => 1)
  }

  /** The rows are renumbered in `b`; `a` only gets as many leading dimensions as needed. */
  function ReshapeLora(l: Lora, shape: seq<nat>): Lora
    requires Valid(l) && |shape| >= 2
  {
    Lora(Reshape(l.a, Ones(|shape| - 2) + [Rank(l), Last(shape)]), Reshape(l.b, Front(shape) + [Rank(l)]))
  }

  /** The last dimension of a row-major number is its remainder, the others its quotient. */
  lemma RavelLast(s: seq<nat>, r: nat, p: seq<nat>, k: nat)
    requires |p| == |s|
    ensures Ravel(s + [r], p + [k]) == Ravel(s, p) * r + k
  {
    assert (s + [r])[..|s|] == s && (p + [k])[..|s|] == p;
  }

  lemma UnravelLast(s: seq<nat>, r: nat, q: nat, k: nat)
    requires k < r
    ensures Unravel(s + [r], q * r + k) == Unravel(s, q) + [k]
  {
    assert (s + [r])[..|s|] == s;
    QuotientAndRemainder(q, r, k);
  }

  lemma QuotientAndRemainder(q: nat, r: nat, k: nat)
    requires k < r
    ensures (q * r + k) / r == q && (q * r + k) % r == k
  {
    var x := q * r + k;
    var q' := x / r;
    assert x == q' * r + x % r;
    if q + 1 <= q' {
      MultiplesGrow(q + 1, q', r);
    }
    if q' + 1 <= q {
      MultiplesGrow(q' + 1, q, r);
    }
  }

  lemma MultiplesGrow(a: nat, b: nat, r: nat)
    requires a <= b
    ensures a * r <= b * r
  {
  }

  /** Reshaping with the same last dimension moves only the indices before it. */
  lemma ReshapeIndex(s: seq<nat>, s': seq<nat>, r: nat, p: seq<nat>, k: nat)
    requires |p| == |s'| && k < r
    ensures Unravel(s + [r], Ravel(s' + [r], p + [k])) == Unravel(s, Ravel(s', p)) + [k]
  {
    RavelLast(s', r, p, k);
    UnravelLast(s, r, Ravel(s', p), k);
  }

  lemma {:induction false} ZerosRavel(s: seq<nat>, n: nat)
    requires AllOnes(s) && n == |s|
    ensures Ravel(s, Zeros(n)) == 0
  {
    if s != [] {
      assert Zeros(n)[..n - 1] == Zeros(n - 1);
      ZerosRavel(s[..n - 1], n - 1);
    }
  }

  lemma {:induction false} ZeroUnravel(s: seq<nat>)
    requires AllOnes(s)
    ensures Unravel(s, 0) == Zeros(|s|)
  {
    if s != [] {
      var n := |s| - 1;
      ZeroUnravel(s[..n]);
      assert s[n] == 1;
      assert Zeros(n) + [0] == Zeros(n + 1);
    }
  }

  /** In `a`, whose leading dimensions are all one, reshaping finds the same row and column. */
  lemma ReshapeInA(n: nat, s: seq<nat>, r: nat, c: nat, k: nat, j: nat)
    requires AllOnes(s) && k < r && j < c
    ensures Unravel(s + [r, c], Ravel(Ones(n) + [r, c], Zeros(n) + [k, j])) == Zeros(|s|) + [k, j]
  {
    hide Ravel, Unravel, Ones, Zeros;
    ReshapeIndex(s + [r], Ones(n) + [r], c, Zeros(n) + [k], j);
    ReshapeIndex(s, Ones(n), r, Zeros(n), k);
    ZerosRavel(Ones(n), n);
    ZeroUnravel(s);
    TwoMore(s, r, c);
    TwoMore(Ones(n), r, c);
    TwoMore(Zeros(n), k, j);
    TwoMore(Zeros(|s|), k, j);
  }

  lemma TwoMore(s: seq<nat>, x: nat, y: nat)
    ensures s + [x, y] == (s + [x]) + [y]
  {
  }

  lemma ReshapeValid(l: Lora, shape: seq<nat>)
    requires Valid(l) && |shape| >= 2
    ensures Valid(ReshapeLora(l, shape)) && Rank(ReshapeLora(l, shape)) == Rank(l)
    ensures Shape(ReshapeLora(l, shape)) == shape
  {
    var m := ReshapeLora(l, shape);
    assert m.a.shape[..|shape| - 2] == Ones(|shape| - 2);
    assert Front(shape) + [Last(shape)] == shape;
  }

  lemma ReshapeProduct(l: Lora, shape: seq<nat>)
    requires Valid(l) && |shape| >= 2 && Last(shape) == Last(Shape(l))
    ensures (ReshapeValid(l, shape); Same(Product(ReshapeLora(l, shape)), Reshape(Product(l), shape)))
  {
    ReshapeValid(l, shape);
    hide Entry, Product;
    var m := ReshapeLora(l, shape);
    var t := Reshape(Product(l), shape);
    forall p, j | InBounds(Shape(m), p + [j]) ensures Entry(m, p, j) == t.at(p + [j]) {
      ReshapeAt(l, m, shape, p, j);
    }
    hide Product, Entry, ReshapeLora, Reshape;
    IsProduct(m, t);
  }

  lemma ReshapeAt(l: Lora, m: Lora, shape: seq<nat>, p: seq<nat>, j: nat)
    requires Valid(l) && |shape| >= 2 && Last(shape) == Last(Shape(l)) && m == ReshapeLora(l, shape) && Valid(m)
    requires InBounds(shape, p + [j])
    ensures Entry(m, p, j) == Reshape(Product(l), shape).at(p + [j])
  {
    hide Entry, Product, Ravel, Unravel;
    var s, c, n := Front(l.b.shape), Last(shape), |l.b.shape|;
    assert |p| == |shape| - 1 && (p + [j])[|p|] == j < c;
    var q := Unravel(s, Ravel(Front(shape), p));
    ReshapeEntry(l, m, shape, p, j);
    assert Shape(l) == s + [c] && shape == Front(shape) + [c];
    ProductShape(l);
    ReshapeIndex(s, Front(shape), c, p, j);
    ProductAt(l, q, j);
  }

  lemma ReshapeEntry(l: Lora, m: Lora, shape: seq<nat>, p: seq<nat>, j: nat)
    requires Valid(l) && |shape| >= 2 && Last(shape) == Last(Shape(l)) && m == ReshapeLora(l, shape) && Valid(m)
    requires |p| == |shape| - 1 && j < Last(shape)
    ensures Entry(m, p, j) == Entry(l, Unravel(Front(l.b.shape), Ravel(Front(shape), p)), j)
  {
    hide Entry, ReshapeLora, Unravel, Ravel;
    ReshapeValid(l, shape);
    var q := Unravel(Front(l.b.shape), Ravel(Front(shape), p));
    forall k: nat | k < Rank(l) ensures m.b.at(p + [k]) == l.b.at(q + [k]) {
      ReshapedB(l, shape, p, k);
    }
    forall k: nat | k < Rank(l) ensures m.a.at(InA(m, k, j)) == l.a.at(InA(l, k, j)) {
      ReshapedA(l, m, shape, k, j);
    }
    EntriesEqual(m, p, j, l, q, j);
  }

  lemma ReshapedB(l: Lora, shape: seq<nat>, p: seq<nat>, k: nat)
    requires Valid(l) && |shape| >= 2 && |p| == |shape| - 1 && k < Rank(l)
    ensures ReshapeLora(l, shape).b.at(p + [k]) == l.b.at(Unravel(Front(l.b.shape), Ravel(Front(shape), p)) + [k])
  {
    hide Ravel, Unravel;
    assert l.b.shape == Front(l.b.shape) + [Rank(l)];
    ReshapeIndex(Front(l.b.shape), Front(shape), Rank(l), p, k);
  }

  lemma ReshapedA(l: Lora, m: Lora, shape: seq<nat>, k: nat, j: nat)
    requires Valid(l) && |shape| >= 2 && Last(shape) == Last(Shape(l)) && m == ReshapeLora(l, shape) && Valid(m)
    requires k < Rank(l) && j < Last(shape)
    ensures m.a.at(InA(m, k, j)) == l.a.at(InA(l, k, j))
  {
    hide Ravel, Unravel;
    var n := |l.b.shape|;
    assert l.a.shape == l.a.shape[..n - 2] + [Rank(l), Last(shape)];
    ReshapeInA(|shape| - 2, l.a.shape[..n - 2], Rank(l), Last(shape), k, j);
  }
}
