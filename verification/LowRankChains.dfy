/** Indexing, splitting and whole chains of operations on low-rank tensors. */
module LowRankChains {
  import opened LowRank

  // ----- Operations on equal tensors ------------------------------------------

  lemma {:induction false} RavelInRange(s: seq<nat>, idx: seq<nat>)
    requires InBounds(s, idx)
    ensures Ravel(s, idx) < Prod(s)
  {
    if s != [] {
      var n := |s| - 1;
      RavelInRange(s[..n], idx[..n]);
      var r, p := Ravel(s[..n], idx[..n]), Prod(s[..n]);
      assert Ravel(s, idx) == r * s[n] + idx[n] && Prod(s) == p * s[n];
      hide Ravel, Prod;
      RowInRange(r, p, s[n], idx[n]);
    }
  }

  lemma RowInRange(r: nat, p: nat, n: nat, i: nat)
    requires r < p && i < n
    ensures r * n + i < p * n
  {
    MultiplesGrow(r + 1, p, n);
    assert (r + 1) * n == r * n + n;
  }

  lemma QuotientInRange(m: nat, p: nat, r: nat)
    requires m < p * r && r > 0
    ensures m / r < p
  {
    if p <= m / r {
      MultiplesGrow(p, m / r, r);
    }
  }

  lemma {:induction false} UnravelInBounds(s: seq<nat>, m: nat)
    requires m < Prod(s)
    ensures InBounds(s, Unravel(s, m))
  {
    if s != [] {
      var n := |s| - 1;
      if s[n] > 0 {
        QuotientInRange(m, Prod(s[..n]), s[n]);
        UnravelInBounds(s[..n], m / s[n]);
      }
    }
  }

  lemma {:induction false} UnpermuteInBounds(t: Tensor, dims: seq<nat>, idx: seq<nat>)
    requires IsPermutation(dims) && |dims| == |t.shape| && InBounds(Permute(t, dims).shape, idx)
    ensures InBounds(t.shape, Unpermute(dims, idx))
  {
    forall d | 0 <= d < |dims| ensures Unpermute(dims, idx)[d] < t.shape[d] {
      var i := Position(dims, d);
      assert idx[i] < Permute(t, dims).shape[i];
    }
  }

  datatype Op =
    | TakeOp(d: nat, picks: seq<nat>)
    | PickOp(d: nat, i: nat)
    | PermuteOp(dims: seq<nat>)
    | TransposeOp
    | ReshapeOp(shape: seq<nat>)
    | ScaleOp(c: real)
    | ScaleRowsOp(factor: seq<nat> -> real)
    | CatOp(other: Lora)

  /** The operation makes sense for a tensor of this shape and is one the low-rank form supports. */
  ghost predicate Fits(shape: seq<nat>, op: Op) {
    match op
    case TakeOp(d, picks) => d < |shape| && forall i :: 0 <= i < |picks| ==> picks[i] < shape[d]
    case PickOp(d, i) => d + 2 < |shape| && i < shape[d]
    case PermuteOp(dims) => KeepsLast(dims) && |dims| == |shape|
    case TransposeOp => |shape| == 2
    case ReshapeOp(s) => shape != [] && |s| >= 2 && Last(s) == Last(shape) && Prod(s) == Prod(shape)
    case ScaleOp(_) => true
    case ScaleRowsOp(_) => true
    case CatOp(other) => |shape| == 2 && Valid(other) && |other.b.shape| == 2 && other.a.shape[1] == shape[1]
  }

  /** Only matrices with the same `a` can be stacked. */
  ghost predicate Supported(l: Lora, op: Op)
    requires Valid(l)
  {
    Fits(Shape(l), op) && (op.CatOp? ==> Same(l.a, op.other.a))
  }

  ghost function LoraStep(l: Lora, op: Op): Lora
    requires Valid(l) && Supported(l, op)
  {
    match op
    case TakeOp(d, picks) => TakeLora(l, d, picks)
    case PickOp(d, i) => PickLora(l, d, i)
    case PermuteOp(dims) => PermuteLora(l, dims)
    case TransposeOp => TransposeLora(l)
    case ReshapeOp(s) => ReshapeLora(l, s)
    case ScaleOp(c) => ScaleLora(l, c)
    case ScaleRowsOp(factor) => ScaleRowsLora(l, factor)
    case CatOp(other) => CatLora(l, other)
  }

  ghost function DenseStep(t: Tensor, op: Op): Tensor
    requires Fits(t.shape, op)
  {
    match op
    case TakeOp(d, picks) => Take(t, d, picks)
    case PickOp(d, i) => Pick(t, d, i)
    case PermuteOp(dims) => Permute(t, dims)
    case TransposeOp => Transposed(t)
    case ReshapeOp(s) => Reshape(t, s)
    case ScaleOp(c) => Scale(t, c)
    case ScaleRowsOp(factor) => ScaleRows(t, factor)
    case CatOp(other) => ProductShape(other); CatRows(t, Product(other))
  }

  lemma StepProduct(l: Lora, op: Op)
    requires Valid(l) && Supported(l, op)
    ensures Valid(LoraStep(l, op)) && Product(l).shape == Shape(l)
    ensures Same(Product(LoraStep(l, op)), DenseStep(Product(l), op))
  {
    ProductShape(l);
    hide Product, Same;
    match op
    case TakeOp(d, picks) => TakeValid(l, d, picks); TakeProduct(l, d, picks);
    case PickOp(d, i) => PickValid(l, d, i); PickProduct(l, d, i);
    case PermuteOp(dims) => PermuteValid(l, dims); PermuteProduct(l, dims);
    case TransposeOp => TransposeValid(l); TransposeProduct(l);
    case ReshapeOp(s) => ReshapeValid(l, s); ReshapeProduct(l, s);
    case ScaleOp(c) => ScaleProduct(l, c);
    case ScaleRowsOp(factor) => ScaleRowsProduct(l, factor);
    case CatOp(other) => CatProduct(l, other);
  }

  lemma TakeSame(t: Tensor, u: Tensor, d: nat, picks: seq<nat>)
    requires Same(t, u) && Fits(t.shape, TakeOp(d, picks))
    ensures Same(Take(t, d, picks), Take(u, d, picks))
  {
    forall idx | InBounds(t.shape[d := |picks|], idx) ensures Take(t, d, picks).at(idx) == Take(u, d, picks).at(idx) {
      assert InBounds(t.shape, idx[d := picks[idx[d]]]);
    }
  }

  lemma PickSame(t: Tensor, u: Tensor, d: nat, i: nat)
    requires Same(t, u) && Fits(t.shape, PickOp(d, i))
    ensures Same(Pick(t, d, i), Pick(u, d, i))
  {
    var shape := t.shape[..d] + t.shape[d + 1..];
    forall idx | InBounds(shape, idx) ensures Pick(t, d, i).at(idx) == Pick(u, d, i).at(idx) {
      var src := idx[..d] + [i] + idx[d..];
      forall e | 0 <= e < |src| ensures src[e] < t.shape[e] {
        if e < d {
          assert shape[e] == t.shape[e];
        } else if e > d {
          assert src[e] == idx[e - 1] && shape[e - 1] == t.shape[e];
        }
      }
      assert InBounds(t.shape, src);
    }
  }

  lemma PermuteSame(t: Tensor, u: Tensor, dims: seq<nat>)
    requires Same(t, u) && IsPermutation(dims) && |dims| == |t.shape|
    ensures Same(Permute(t, dims), Permute(u, dims))
  {
    forall idx | InBounds(Permute(t, dims).shape, idx) ensures Permute(t, dims).at(idx) == Permute(u, dims).at(idx) {
      UnpermuteInBounds(t, dims, idx);
    }
  }

  lemma ReshapeSame(t: Tensor, u: Tensor, s: seq<nat>)
    requires Same(t, u) && Prod(s) == Prod(t.shape)
    ensures Same(Reshape(t, s), Reshape(u, s))
  {
    forall idx | InBounds(s, idx) ensures Reshape(t, s).at(idx) == Reshape(u, s).at(idx) {
      RavelInRange(s, idx);
      UnravelInBounds(t.shape, Ravel(s, idx));
    }
  }

  lemma CatSame(t: Tensor, u: Tensor, w: Tensor)
    requires Same(t, u) && |t.shape| == |w.shape| == 2
    ensures Same(CatRows(t, w), CatRows(u, w))
  {
  }

  lemma DenseStepSame(t: Tensor, u: Tensor, op: Op)
    requires Same(t, u) && Fits(t.shape, op)
    ensures Same(DenseStep(t, op), DenseStep(u, op))
  {
    hide Product;
    match op
    case TakeOp(d, picks) => TakeSame(t, u, d, picks);
    case PickOp(d, i) => PickSame(t, u, d, i);
    case PermuteOp(dims) => PermuteSame(t, u, dims);
    case TransposeOp => SwapIsPermutation(); PermuteSame(t, u, SWAP);
    case ReshapeOp(s) => ReshapeSame(t, u, s);
    case ScaleOp(c) =>
    case ScaleRowsOp(factor) =>
    case CatOp(other) => ProductShape(other); CatSame(t, u, Product(other));
  }

  lemma SameTransitive(t: Tensor, u: Tensor, w: Tensor)
    requires Same(t, u) && Same(u, w)
    ensures Same(t, w)
  {
  }

  // ----- Chains ---------------------------------------------------------------

  /** Every operation of the chain is supported where it is applied. */
  ghost predicate AllSupported(l: Lora, ops: seq<Op>)
    requires Valid(l)
    decreases |ops|
  {
    ops == [] ||
    (Supported(l, ops[0]) && (StepProduct(l, ops[0]); AllSupported(LoraStep(l, ops[0]), ops[1..])))
  }

  ghost function LoraChain(l: Lora, ops: seq<Op>): (r: Lora)
    requires Valid(l) && AllSupported(l, ops)
    ensures Valid(r)
    decreases |ops|
  {
    if ops == [] then l else (StepProduct(l, ops[0]); LoraChain(LoraStep(l, ops[0]), ops[1..]))
  }

  /** The same operations one after the other on a full tensor; `u` is the tensor they end with. */
  ghost predicate DenseChain(t: Tensor, ops: seq<Op>, u: Tensor)
    decreases |ops|
  {
    if ops == [] then Same(t, u)
    else Fits(t.shape, ops[0]) && DenseChain(DenseStep(t, ops[0]), ops[1..], u)
  }

  lemma {:induction false} DenseChainSame(t: Tensor, t': Tensor, ops: seq<Op>, u: Tensor)
    requires Same(t, t') && DenseChain(t, ops, u)
    ensures DenseChain(t', ops, u)
    decreases |ops|
  {
    hide Fits, DenseStep;
    if ops == [] {
      SameSymmetric(t, t');
      SameTransitive(t', t, u);
    } else {
      DenseStepSame(t, t', ops[0]);
      DenseChainSame(DenseStep(t, ops[0]), DenseStep(t', ops[0]), ops[1..], u);
    }
  }

  lemma SameSymmetric(t: Tensor, u: Tensor)
    requires Same(t, u)
    ensures Same(u, t)
  {
  }

  /** A chain on the factors stands for the same chain on the tensor they stand for. */
  lemma {:induction false} ChainIsHomomorphic(l: Lora, ops: seq<Op>)
    requires Valid(l) && AllSupported(l, ops)
    ensures DenseChain(Product(l), ops, Product(LoraChain(l, ops)))
    decreases |ops|
  {
    hide Product, LoraStep, DenseStep, Fits, Same;
    if ops == [] {
      SameReflexive(Product(l));
    } else {
      var op := ops[0];
      StepProduct(l, op);
      var m := LoraStep(l, op);
      ChainIsHomomorphic(m, ops[1..]);
      DenseChainSame(Product(m), DenseStep(Product(l), op), ops[1..], Product(LoraChain(l, ops)));
    }
  }

  lemma SameReflexive(t: Tensor)
    ensures Same(t, t)
  {
  }

  // ----- Splitting ------------------------------------------------------------

  function Range(lo: nat, n: nat): (r: seq<nat>)
    ensures |r| == n && forall i :: 0 <= i < n ==> r[i] == lo + i
  {
    seq(n, (i: nat) => lo + i)
  }

  /** The positions of consecutive chunks. */
  function Chunks(lo: nat, sizes: seq<nat>): (r: seq<seq<nat>>)
    ensures |r| == |sizes|
    decreases |sizes|
  {
    if sizes == [] then [] else [Range(lo, sizes[0])] + Chunks(lo + sizes[0], sizes[1..])
  }

  function Total(sizes: seq<nat>): nat {
    if sizes == [] then 0 else sizes[0] + Total(sizes[1..])
  }

  function Joined(chunks: seq<seq<nat>>): seq<nat> {
    if chunks == [] then [] else chunks[0] + Joined(chunks[1..])
  }

  /** The chunk sizes for a single size: full chunks and a shorter last one; an empty dimension is one empty chunk. */
  function EvenSizes(n: nat, size: nat): seq<nat>
    requires size > 0
  {
    if n <= size then [n] else [size] + EvenSizes(n - size, size)
  }

  lemma {:induction false} EvenSizesTotal(n: nat, size: nat)
    requires size > 0
    ensures Total(EvenSizes(n, size)) == n
  {
    if n > size {
      EvenSizesTotal(n - size, size);
    } else {
      assert [n][1..] == [];
    }
  }

  /** There is at least one part; every part but the last has the size, and the last has what is left, at most the size. */
  lemma {:induction false} EvenSizesExactly(n: nat, size: nat)
    requires size > 0
    ensures
      var sizes := EvenSizes(n, size);
      && sizes != [] && (forall i :: 0 <= i < |sizes| - 1 ==> sizes[i] == size)
      && sizes[|sizes| - 1] <= size && (n > 0 ==> sizes[|sizes| - 1] >= 1)
      && n == (|sizes| - 1) * size + sizes[|sizes| - 1]
  {
    if n > size {
      EvenSizesExactly(n - size, size);
      OneMore(|EvenSizes(n - size, size)| - 1, size);
    }
  }

  lemma OneMore(k: nat, size: nat)
    ensures (k + 1) * size == k * size + size
  {
  }

  lemma {:induction false} ChunkAt(lo: nat, sizes: seq<nat>, i: nat)
    requires i < |sizes|
    ensures Chunks(lo, sizes)[i] == Range(lo + Total(sizes[..i]), sizes[i])
    ensures Total(sizes[..i]) + sizes[i] <= Total(sizes)
    decreases |sizes|
  {
    if i > 0 {
      ChunkAt(lo + sizes[0], sizes[1..], i - 1);
      assert sizes[..i][1..] == sizes[1..][..i - 1];
    }
  }

  lemma {:induction false} ChunksTile(lo: nat, sizes: seq<nat>)
    ensures Joined(Chunks(lo, sizes)) == Range(lo, Total(sizes))
    decreases |sizes|
  {
    if sizes != [] {
      ChunksTile(lo + sizes[0], sizes[1..]);
      assert Chunks(lo, sizes)[1..] == Chunks(lo + sizes[0], sizes[1..]);
    }
  }

  function SplitLora(l: Lora, d: nat, sizes: seq<nat>): (r: seq<Lora>)
    requires Valid(l) && d < |l.b.shape|
    ensures |r| == |sizes|
  {
    seq(|sizes|, i requires 0 <= i < |sizes| => TakeLora(l, d, Chunks(0, sizes)[i]))
  }

  /** Each part of a split stands for its part of the tensor, and the parts together cover the dimension once. */
  lemma SplitProduct(l: Lora, d: nat, sizes: seq<nat>, i: nat)
    requires Valid(l) && d < |l.b.shape| && Total(sizes) == Shape(l)[d] && i < |sizes|
    ensures Valid(SplitLora(l, d, sizes)[i])
    ensures Same(Product(SplitLora(l, d, sizes)[i]), Take(Product(l), d, Chunks(0, sizes)[i]))
    ensures Joined(Chunks(0, sizes)) == Range(0, Shape(l)[d])
  {
    hide Product, Same;
    ChunksTile(0, sizes);
    TakeValid(l, d, Chunks(0, sizes)[i]);
    TakeProduct(l, d, Chunks(0, sizes)[i]);
  }

  /**
   Part `i` of a split has the size asked for, and its entries are those of the tensor behind the parts before it.
   */
  lemma SplitEntries(l: Lora, d: nat, sizes: seq<nat>, i: nat)
    requires Valid(l) && d < |l.b.shape| && Total(sizes) == Shape(l)[d] && i < |sizes|
    ensures Valid(SplitLora(l, d, sizes)[i]) && Shape(SplitLora(l, d, sizes)[i]) == Shape(l)[d := sizes[i]]
    ensures Shifted(Product(SplitLora(l, d, sizes)[i]), Product(l), d, Total(sizes[..i]), sizes[i])
  {
    hide *;
    ProductShape(l);
    SplitPart(l, d, sizes, i);
    TakeRange(Product(SplitLora(l, d, sizes)[i]), Product(l), d, Total(sizes[..i]), sizes[i]);
    ProductShape(SplitLora(l, d, sizes)[i]);
    ShiftedShape(Product(SplitLora(l, d, sizes)[i]), Product(l), d, Total(sizes[..i]), sizes[i]);
  }

  lemma SplitPart(l: Lora, d: nat, sizes: seq<nat>, i: nat)
    requires Valid(l) && d < |l.b.shape| && Total(sizes) == Shape(l)[d] && i < |sizes|
    ensures |Product(l).shape| == |Shape(l)| == |l.b.shape| && Total(sizes[..i]) + sizes[i] <= Shape(l)[d]
    ensures Valid(SplitLora(l, d, sizes)[i])
    ensures Same(Product(SplitLora(l, d, sizes)[i]), Take(Product(l), d, Range(Total(sizes[..i]), sizes[i])))
  {
    hide *;
    SameRank(l);
    ChunkAt(0, sizes, i);
    assert 0 + Total(sizes[..i]) == Total(sizes[..i]);
    SplitProduct(l, d, sizes, i);
  }

  lemma SameRank(l: Lora)
    requires Valid(l)
    ensures |Product(l).shape| == |Shape(l)| == |l.b.shape|
  {
  }

  lemma ShiftedShape(t: Tensor, u: Tensor, d: nat, lo: nat, n: nat)
    requires d < |u.shape| && Shifted(t, u, d, lo, n)
    ensures t.shape == u.shape[d := n]
  {
  }

  /** `t` is `u` from position `lo` on, `n` positions of dimension `d`. */
  ghost predicate Shifted(t: Tensor, u: Tensor, d: nat, lo: nat, n: nat)
    requires d < |u.shape|
  {
    && lo + n <= u.shape[d] && t.shape == u.shape[d := n]
    && forall idx: seq<nat> :: InBounds(t.shape, idx) ==>
         |idx| == |u.shape| && InBounds(u.shape, idx[d := idx[d] + lo]) && t.at(idx) == u.at(idx[d := idx[d] + lo])
  }

  lemma TakeRange(t: Tensor, u: Tensor, d: nat, lo: nat, n: nat)
    requires d < |u.shape| && lo + n <= u.shape[d] && Same(t, Take(u, d, Range(lo, n)))
    ensures Shifted(t, u, d, lo, n)
  {
  }

  /** A split by one size: every part but the last has it, and all together have the whole dimension. */
  lemma EvenSplit(l: Lora, d: nat, size: nat, i: nat)
    requires Valid(l) && d < |l.b.shape| && size > 0
    ensures Total(EvenSizes(Shape(l)[d], size)) == Shape(l)[d]
    ensures
      var parts, n := SplitLora(l, d, EvenSizes(Shape(l)[d], size)), Shape(l)[d];
      && parts != [] && (|parts| - 1) * size <= n <= |parts| * size
      && (i < |parts| - 1 ==> Shape(parts[i]) == Shape(l)[d := size])
      && (i == |parts| - 1 ==> Shape(parts[i]) == Shape(l)[d := n - i * size])
  {
    hide *;
    SameRank(l);
    var n := Shape(l)[d];
    var sizes := EvenSizes(n, size);
    EvenSizesTotal(n, size);
    EvenSizesExactly(n, size);
    if i < |sizes| {
      SplitEntries(l, d, sizes, i);
    }
  }

  // ----- Indexing -------------------------------------------------------------

  /** One component of an index: a whole dimension, the positions a slice selects, or a single position. */
  datatype Index = Full | Positions(picks: seq<nat>) | At(j: int)

  function IndexDim(t: Tensor, d: nat, ix: Index): Tensor
    requires d < |t.shape|
  {
    match ix
    case Full => t
    case Positions(picks) => Take(t, d, picks)
    case At(j) => if t.shape[d] == 0 then t else Pick(t, d, j % t.shape[d])
  }

  /** Components are applied from the last dimension to the first, so that earlier dimensions keep their place. */
  function IndexAll(t: Tensor, ixs: seq<Index>): Tensor
    requires |ixs| <= |t.shape|
    decreases |ixs|
  {
    if ixs == [] then t
    else
      var d := |ixs| - 1;
      var u := IndexDim(t, d, ixs[d]);
      IndexAll(u, ixs[..d])
  }

  /** The components for `a`: single positions, reduced to the one position there is; slices do not touch it. */
  function LeadIndices(ixs: seq<Index>): (r: seq<Index>)
    ensures |r| == |ixs|
  {
    seq(|ixs|, i requires 0 <= i < |ixs| => if ixs[i].At? then At(0) else Full)
  }

  /** Indexing with one component per dimension. */
  function GetItem(l: Lora, ixs: seq<Index>): Lora
    requires Valid(l) && |ixs| == |l.b.shape|
  {
    var n := |ixs|;
    Lora(IndexAll(l.a, LeadIndices(ixs[..n - 2]) + [Full, ixs[n - 1]]), IndexAll(l.b, ixs[..n - 1]))
  }

  /** Positions are in range, and single positions are only taken of leading dimensions. */
  ghost predicate IndexFits(shape: seq<nat>, ixs: seq<Index>)
    requires |ixs| <= |shape|
  {
    forall d :: 0 <= d < |ixs| ==> ComponentFits(shape, d, ixs[d])
  }

  ghost predicate ComponentFits(shape: seq<nat>, d: nat, ix: Index)
    requires d < |shape|
  {
    match ix
    case Full => true
    case Positions(picks) => forall i :: 0 <= i < |picks| ==> picks[i] < shape[d]
    case At(j) => d + 2 < |shape| && -shape[d] <= j < shape[d]
  }

  /** What one component that is not the column does to the factors. */
  ghost function LoraDim(l: Lora, d: nat, ix: Index): Lora
    requires Valid(l) && d + 1 < |l.b.shape| && ComponentFits(Shape(l), d, ix)
  {
    match ix
    case Full => l
    case Positions(picks) => TakeLora(l, d, picks)
    case At(j) => PickLora(l, d, j % Shape(l)[d])
  }

  lemma LoraDimProduct(l: Lora, d: nat, ix: Index)
    requires Valid(l) && d + 1 < |l.b.shape| && ComponentFits(Shape(l), d, ix)
    ensures Valid(LoraDim(l, d, ix)) && Product(l).shape == Shape(l)
    ensures Same(Product(LoraDim(l, d, ix)), IndexDim(Product(l), d, ix))
    ensures LoraDim(l, d, ix).a == IndexDim(l.a, d, if ix.At? then At(0) else Full)
    ensures LoraDim(l, d, ix).b == IndexDim(l.b, d, ix)
    ensures |LoraDim(l, d, ix).b.shape| == |l.b.shape| - (if ix.At? then 1 else 0)
    ensures Shape(LoraDim(l, d, ix))[..d] == Shape(l)[..d]
  {
    LoraDimFactors(l, d, ix);
    LoraDimShape(l, d, ix);
    LoraDimSame(l, d, ix);
    hide *;
    ProductShape(l);
  }

  lemma LoraDimFactors(l: Lora, d: nat, ix: Index)
    requires Valid(l) && d + 1 < |l.b.shape| && ComponentFits(Shape(l), d, ix)
    ensures LoraDim(l, d, ix).a == IndexDim(l.a, d, if ix.At? then At(0) else Full)
    ensures LoraDim(l, d, ix).b == IndexDim(l.b, d, ix)
  {
    hide Take, Pick;
    if ix.At? {
      assert l.a.shape[..|l.b.shape| - 2][d] == 1;
    }
  }

  lemma LoraDimShape(l: Lora, d: nat, ix: Index)
    requires Valid(l) && d + 1 < |l.b.shape| && ComponentFits(Shape(l), d, ix)
    ensures Valid(LoraDim(l, d, ix))
    ensures |LoraDim(l, d, ix).b.shape| == |l.b.shape| - (if ix.At? then 1 else 0)
    ensures Shape(LoraDim(l, d, ix))[..d] == Shape(l)[..d]
  {
    match ix
    case Full =>
    case Positions(picks) => TakeValid(l, d, picks);
    case At(j) => PickValid(l, d, j % Shape(l)[d]);
  }

  lemma LoraDimSame(l: Lora, d: nat, ix: Index)
    requires Valid(l) && d + 1 < |l.b.shape| && ComponentFits(Shape(l), d, ix)
    requires Valid(LoraDim(l, d, ix))
    ensures Product(l).shape == Shape(l) && Same(Product(LoraDim(l, d, ix)), IndexDim(Product(l), d, ix))
  {
    ProductShape(l);
    hide Product, Same, Take, Pick, TakeLora, PickLora, Valid;
    match ix
    case Full => SameReflexive(Product(l));
    case Positions(picks) => TakeProduct(l, d, picks);
    case At(j) => PickProduct(l, d, j % Shape(l)[d]);
  }

  lemma IndexDimSame(t: Tensor, u: Tensor, d: nat, ix: Index)
    requires Same(t, u) && d < |t.shape| && ComponentFits(t.shape, d, ix)
    ensures Same(IndexDim(t, d, ix), IndexDim(u, d, ix))
  {
    hide Same;
    SameShape(t, u);
    match ix
    case Full =>
    case Positions(picks) => TakeSame(t, u, d, picks);
    case At(j) => PickSame(t, u, d, j % t.shape[d]);
  }

  lemma SameShape(t: Tensor, u: Tensor)
    requires Same(t, u)
    ensures t.shape == u.shape
  {
  }

  lemma FrontFits(shape: seq<nat>, shape': seq<nat>, ixs: seq<Index>)
    requires ixs != [] && |ixs| <= |shape| && IndexFits(shape, ixs)
    requires |shape| - 1 <= |shape'| && |shape'| >= |ixs| + (if ixs[|ixs| - 1].At? then 1 else 0)
    requires shape'[..|ixs| - 1] == shape[..|ixs| - 1]
    requires ixs[|ixs| - 1].At? || |shape'| == |shape|
    ensures IndexFits(shape', ixs[..|ixs| - 1])
  {
    var d := |ixs| - 1;
    assert ComponentFits(shape, d, ixs[d]);
    forall e | 0 <= e < d ensures ComponentFits(shape', e, ixs[..d][e]) {
      assert ComponentFits(shape, e, ixs[e]);
      assert shape'[e] == shape'[..d][e] == shape[..d][e] == shape[e];
    }
  }

  lemma DimShape(t: Tensor, d: nat, ix: Index)
    requires d < |t.shape| && ComponentFits(t.shape, d, ix)
    ensures |IndexDim(t, d, ix).shape| == |t.shape| - (if ix.At? then 1 else 0)
    ensures IndexDim(t, d, ix).shape[..d] == t.shape[..d]
  {
  }

  lemma {:induction false} IndexAllSame(t: Tensor, u: Tensor, ixs: seq<Index>)
    requires Same(t, u) && |ixs| <= |t.shape| && IndexFits(t.shape, ixs)
    ensures Same(IndexAll(t, ixs), IndexAll(u, ixs))
    decreases |ixs|
  {
    hide Same, IndexDim, IndexFits, ComponentFits;
    SameShape(t, u);
    if ixs != [] {
      var d := |ixs| - 1;
      LastFits(t.shape, ixs);
      IndexDimSame(t, u, d, ixs[d]);
      DimShape(t, d, ixs[d]);
      FrontFits(t.shape, IndexDim(t, d, ixs[d]).shape, ixs);
      IndexAllSame(IndexDim(t, d, ixs[d]), IndexDim(u, d, ixs[d]), ixs[..d]);
    }
  }

  lemma LastFits(shape: seq<nat>, ixs: seq<Index>)
    requires ixs != [] && |ixs| <= |shape| && IndexFits(shape, ixs)
    ensures ComponentFits(shape, |ixs| - 1, ixs[|ixs| - 1])
    ensures ixs[|ixs| - 1].At? ==> |ixs| + 1 < |shape|
  {
    assert ComponentFits(shape, |ixs| - 1, ixs[|ixs| - 1]);
  }

  /** Components for everything but the columns. */
  lemma {:induction false} LeadProduct(l: Lora, ixs: seq<Index>)
    requires Valid(l) && |ixs| < |l.b.shape| && IndexFits(Shape(l), ixs)
    ensures var m := Lora(IndexAll(l.a, LeadIndices(ixs)), IndexAll(l.b, ixs));
            Valid(m) && Product(l).shape == Shape(l) && Same(Product(m), IndexAll(Product(l), ixs))
    decreases |ixs|
  {
    hide Same, IndexDim, IndexFits, ComponentFits, Product, LoraDim;
    ProductShape(l);
    if ixs == [] {
      SameReflexive(Product(l));
    } else {
      var d := |ixs| - 1;
      var ix := ixs[d];
      LastFits(Shape(l), ixs);
      LoraDimProduct(l, d, ix);
      var k := LoraDim(l, d, ix);
      FrontFits(Shape(l), Shape(k), ixs);
      LeadProduct(k, ixs[..d]);
      ProductShape(k);
      IndexAllSame(Product(k), IndexDim(Product(l), d, ix), ixs[..d]);
      assert LeadIndices(ixs)[..d] == LeadIndices(ixs[..d]);
      var m := Lora(IndexAll(l.a, LeadIndices(ixs)), IndexAll(l.b, ixs));
      assert m == Lora(IndexAll(k.a, LeadIndices(ixs[..d])), IndexAll(k.b, ixs[..d]));
      SameTransitive(Product(m), IndexAll(Product(k), ixs[..d]), IndexAll(Product(l), ixs));
    }
  }

  /** Indexing the factors indexes the product, when columns are sliced and single positions are taken of leading dimensions. */
  lemma GetItemProduct(l: Lora, ixs: seq<Index>)
    requires Valid(l) && |ixs| == |l.b.shape| && IndexFits(Shape(l), ixs)
    ensures Valid(GetItem(l, ixs)) && Product(l).shape == Shape(l)
    ensures Same(Product(GetItem(l, ixs)), IndexAll(Product(l), ixs))
  {
    hide Same, IndexFits, ComponentFits, Product;
    ProductShape(l);
    var n := |ixs|;
    var col, front := ixs[n - 1], ixs[..n - 1];
    ColumnAndRowFit(Shape(l), ixs);
    var k := ColumnsOf(l, col);
    ColumnsProduct(l, col);
    FrontFits(Shape(l), Shape(k), ixs);
    LeadProduct(k, front);
    ProductShape(k);
    IndexAllSame(Product(k), IndexDim(Product(l), n - 1, col), front);
    var m := GetItem(l, ixs);
    LeadOfColumns(ixs);
    assert IndexAll(l.a, LeadIndices(front) + [col]) == IndexAll(IndexDim(l.a, n - 1, col), LeadIndices(front));
    assert m == Lora(IndexAll(k.a, LeadIndices(front)), IndexAll(k.b, front));
    SameTransitive(Product(m), IndexAll(Product(k), front), IndexAll(Product(l), ixs));
  }

  lemma ColumnAndRowFit(shape: seq<nat>, ixs: seq<Index>)
    requires |ixs| == |shape| >= 2 && IndexFits(shape, ixs)
    ensures !ixs[|ixs| - 1].At? && !ixs[|ixs| - 2].At? && ComponentFits(shape, |ixs| - 1, ixs[|ixs| - 1])
  {
    assert ComponentFits(shape, |ixs| - 1, ixs[|ixs| - 1]) && ComponentFits(shape, |ixs| - 2, ixs[|ixs| - 2]);
  }

  ghost function ColumnsOf(l: Lora, col: Index): Lora
    requires Valid(l)
  {
    Lora(IndexDim(l.a, |l.a.shape| - 1, col), l.b)
  }

  lemma ColumnsProduct(l: Lora, col: Index)
    requires Valid(l) && !col.At? && ComponentFits(Shape(l), |l.b.shape| - 1, col)
    ensures Valid(ColumnsOf(l, col)) && |Shape(ColumnsOf(l, col))| == |Shape(l)| == |Product(l).shape|
    ensures Shape(ColumnsOf(l, col))[..|l.b.shape| - 1] == Shape(l)[..|l.b.shape| - 1]
    ensures Same(Product(ColumnsOf(l, col)), IndexDim(Product(l), |l.b.shape| - 1, col))
  {
    ProductShape(l);
    hide Product, Same;
    match col
    case Full => SameReflexive(Product(l));
    case Positions(picks) =>
      TakeValid(l, |l.b.shape| - 1, picks);
      TakeProduct(l, |l.b.shape| - 1, picks);
  }

  lemma LeadOfColumns(ixs: seq<Index>)
    requires |ixs| >= 2 && !ixs[|ixs| - 2].At?
    ensures var n := |ixs|;
            && LeadIndices(ixs[..n - 2]) + [Full, ixs[n - 1]] == LeadIndices(ixs[..n - 1]) + [ixs[n - 1]]
            && (LeadIndices(ixs[..n - 1]) + [ixs[n - 1]])[..n - 1] == LeadIndices(ixs[..n - 1])
  {
  }
}
