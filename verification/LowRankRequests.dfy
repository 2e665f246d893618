/** Requests as callers write them: shapes with dimensions left open, and bare indices of batched tensors. */
module LowRankRequests {
  import opened Wrappers
  import opened LowRank
  import opened LowRankChains

  const OPEN := -1

  // ----- Shapes with open dimensions ------------------------------------------

  /** The product of the dimensions that are given. */
  function Given(dims: seq<int>): int {
    if dims == [] then 1
    else Given(dims[..|dims| - 1]) * (if dims[|dims| - 1] == OPEN then 1 else dims[|dims| - 1])
  }

  /** Every open dimension gets what the given ones leave of `n` elements. */
  function Filled(dims: seq<int>, q: nat): (shape: seq<nat>)
    requires forall i :: 0 <= i < |dims| ==> dims[i] >= OPEN
    ensures |shape| == |dims|
  {
    seq(|dims|, i requires 0 <= i < |dims| => if dims[i] == OPEN then q else dims[i])
  }

  function Resolve(dims: seq<int>, n: nat): Option<seq<nat>> {
    if exists i :: 0 <= i < |dims| && dims[i] < OPEN then None
    else if OPEN !in dims then Some(Filled(dims, 0))
    else if Given(dims) <= 0 || n % Given(dims) != 0 then None
    else Some(Filled(dims, n / Given(dims)))
  }

  /** `shape` has the dimensions that are given. */
  predicate Agrees(dims: seq<int>, shape: seq<nat>) {
    |shape| == |dims| && forall i :: 0 <= i < |dims| ==> dims[i] == OPEN || dims[i] == shape[i]
  }

  predicate OneOpen(dims: seq<int>, o: nat) {
    o < |dims| && forall i :: 0 <= i < |dims| ==> (dims[i] == OPEN <==> i == o) && dims[i] >= OPEN
  }

  lemma {:induction false} GivenAll(dims: seq<int>, shape: seq<nat>)
    requires Agrees(dims, shape) && OPEN !in dims
    ensures Given(dims) == Prod(shape)
  {
    if dims != [] {
      var k := |dims| - 1;
      GivenAll(dims[..k], shape[..k]);
    }
  }

  lemma {:induction false} GivenTimesOpen(dims: seq<int>, shape: seq<nat>, o: nat)
    requires Agrees(dims, shape) && OneOpen(dims, o)
    ensures Prod(shape) == Given(dims) * shape[o]
    decreases |dims|
  {
    var k := |dims| - 1;
    var front, front' := dims[..k], shape[..k];
    if o == k {
      GivenAll(front, front');
    } else {
      GivenTimesOpen(front, front', o);
      var g, x, y := Given(front), shape[o], shape[k];
      assert (g * x) * y == (g * y) * x;
    }
  }

  /** With one dimension open and no other one zero, the shape found is the one with the right number of elements. */
  lemma ResolvesExactly(dims: seq<int>, n: nat, shape: seq<nat>, o: nat)
    requires OneOpen(dims, o) && Given(dims) > 0
    ensures Resolve(dims, n) == Some(shape) <==> Agrees(dims, shape) && Prod(shape) == n
  {
    var g := Given(dims);
    assert OPEN in dims by {
      assert dims[o] == OPEN;
    }
    if Agrees(dims, shape) && Prod(shape) == n {
      GivenTimesOpen(dims, shape, o);
      Divides(g, shape[o]);
      assert shape == Filled(dims, n / g);
    }
    if Resolve(dims, n) == Some(shape) {
      GivenTimesOpen(dims, shape, o);
      assert shape[o] == n / g;
      Exact(n, g);
    }
  }

  lemma Divides(g: int, q: nat)
    requires g > 0
    ensures (g * q) % g == 0 && (g * q) / g == q
  {
    QuotientAndRemainder(q, g, 0);
    assert g * q == q * g + 0;
  }

  lemma Exact(n: nat, g: int)
    requires g > 0 && n % g == 0
    ensures g * (n / g) == n
  {
  }

  // ----- Reshape --------------------------------------------------------------

  /** Refused for fewer than two dimensions, another last one, or a number of elements that does not fit. */
  function ReshapeTo(l: Lora, dims: seq<int>): Option<Lora>
    requires Valid(l)
  {
    var shape := Resolve(dims, Prod(Shape(l)));
    if |dims| < 2 || shape.None? || Last(shape.value) != Last(Shape(l)) then None
    else if Prod(Front(shape.value)) * Rank(l) != Prod(Front(Shape(l))) * Rank(l) then None
    else Some(ReshapeLora(l, shape.value))
  }

  /** A request that is granted reshapes the product, to a shape with the given dimensions and as many elements. */
  lemma ReshapeToProduct(l: Lora, dims: seq<int>)
    requires Valid(l) && ReshapeTo(l, dims).Some?
    ensures
      var m := ReshapeTo(l, dims).value;
      && Valid(m) && Agrees(dims, Shape(m))
      && Same(Product(m), Reshape(Product(l), Shape(m)))
      && (Rank(l) > 0 ==> Prod(Shape(m)) == Prod(Shape(l)))
  {
    var shape := Resolve(dims, Prod(Shape(l))).value;
    ReshapeValid(l, shape);
    ReshapeProduct(l, shape);
    if Rank(l) > 0 {
      Cancel(Prod(Front(shape)), Prod(Front(Shape(l))), Rank(l));
      assert Prod(shape) == Prod(Front(shape)) * Last(shape);
      assert Prod(Shape(l)) == Prod(Front(Shape(l))) * Last(Shape(l));
    }
  }

  lemma Cancel(x: nat, y: nat, r: nat)
    requires r > 0 && x * r == y * r
    ensures x == y
  {
    if x < y {
      MoreTimes(x, y, r);
    } else if y < x {
      MoreTimes(y, x, r);
    }
  }

  lemma MoreTimes(x: nat, y: nat, r: nat)
    requires x < y && r > 0
    ensures x * r < y * r
  {
    MultiplesGrow(x + 1, y, r);
    assert (x + 1) * r == x * r + r;
  }

  // ----- Products of batched factors ------------------------------------------

  /** What the constructor asserts of the two factors. */
  predicate Constructs(a: Tensor, b: Tensor) {
    |a.shape| == |b.shape| >= 2 && a.shape[|a.shape| - 2] == b.shape[|b.shape| - 1]
  }

  /** The leading dimensions agree, or `a` has one where `b` has any. */
  predicate Multiplies(l: Lora) {
    && Constructs(l.a, l.b)
    && forall d :: 0 <= d < |l.b.shape| - 2 ==> l.a.shape[d] == 1 || l.a.shape[d] == l.b.shape[d]
  }

  /** The matrix of `a` that belongs to row index `p` of `b`. */
  function Lead(shape: seq<nat>, p: seq<nat>): (q: seq<nat>)
    requires |shape| >= 2 && |p| == |shape| - 1
    ensures |q| == |shape| - 2
  {
    seq(|shape| - 2, d requires 0 <= d < |shape| - 2 => if shape[d] == 1 then 0 else p[d])
  }

  /** The product with `a` repeated where it has one, of the shape the factors claim. */
  function Batched(l: Lora): Tensor
    requires Multiplies(l)
  {
    var n := |l.b.shape|;
    Tensor(l.b.shape[..n - 1] + [l.a.shape[n - 1]],
           (idx: seq<nat>) =>
             if |idx| != n then 0.0
             else Sum((k: nat) => l.b.at(Front(idx) + [k]) * l.a.at(Lead(l.a.shape, Front(idx)) + [k, Last(idx)]), l.b.shape[n - 1]))
  }

  /** With leading dimensions of one this is the product of the chains. */
  lemma BatchedIsProduct(l: Lora)
    requires Valid(l)
    ensures Multiplies(l) && Same(Batched(l), Product(l))
  {
    LeadingOnes(l);
    ProductShape(l);
    forall idx | InBounds(Shape(l), idx) ensures Batched(l).at(idx) == Product(l).at(idx) {
      BatchedAt(l, idx);
    }
  }

  lemma LeadingOnes(l: Lora)
    requires Valid(l)
    ensures forall d :: 0 <= d < |l.b.shape| - 2 ==> l.a.shape[d] == 1
  {
    var n := |l.b.shape|;
    assert forall d :: 0 <= d < n - 2 ==> l.a.shape[d] == l.a.shape[..n - 2][d];
  }

  lemma BatchedAt(l: Lora, idx: seq<nat>)
    requires Valid(l) && Multiplies(l) && |idx| == |l.b.shape|
    ensures Batched(l).at(idx) == Product(l).at(idx)
  {
    LeadingOnes(l);
    var p, j := Front(idx), Last(idx);
    var f := (k: nat) => l.b.at(p + [k]) * l.a.at(Lead(l.a.shape, p) + [k, j]);
    assert Lead(l.a.shape, p) == Zeros(|l.b.shape| - 2);
    assert Batched(l).at(idx) == Sum(f, Rank(l));
    forall k: nat | k < Rank(l) ensures f(k) == Terms(l, p, j)(k) {
      assert InA(l, k, j) == Lead(l.a.shape, p) + [k, j];
    }
    hide Lead;
    SumsEqual(f, Terms(l, p, j), Rank(l));
  }

  // ----- Bare slices ----------------------------------------------------------

  /** A bound that is left out, or counted from the end when negative. */
  function Clamp(n: nat, bound: Option<int>, default: nat): (r: nat)
    requires default <= n
    ensures r <= n
  {
    if bound.None? then default
    else
      var j := if bound.value < 0 then bound.value + n else bound.value;
      if j < 0 then 0 else if j > n then n else j
  }

  function Every(start: nat, stop: nat, step: nat): (picks: seq<nat>)
    requires step > 0
    ensures forall i :: 0 <= i < |picks| ==> start <= picks[i] < stop
    ensures |picks| == 0 <==> stop <= start
    ensures stop == start + 1 ==> picks == [start]
    decreases stop - start
  {
    if stop <= start then [] else [start] + Every(start + step, stop, step)
  }

  /** The positions a slice selects of `n`. */
  function SlicePicks(n: nat, sl: Slice): (picks: seq<nat>)
    ensures forall i :: 0 <= i < |picks| ==> picks[i] < n
  {
    Every(Clamp(n, sl.lo, 0), Clamp(n, sl.hi, n), sl.step)
  }

  lemma {:induction false} EveryExactly(start: nat, stop: nat, step: nat, i: nat)
    requires step > 0
    ensures var picks := Every(start, stop, step);
            && (i < |picks| ==> picks[i] == start + i * step)
            && stop <= start + |picks| * step
    decreases stop - start
  {
    if start < stop {
      EveryExactly(start + step, stop, step, if i == 0 then 0 else i - 1);
      OneStepMore(|Every(start + step, stop, step)|, step);
      if i > 0 {
        OneStepMore(i - 1, step);
      }
    }
  }

  lemma OneStepMore(k: nat, step: nat)
    ensures (k + 1) * step == step + k * step
  {
  }

  /** From the first bound on, every `step`th position, as long as it is before the second one. */
  lemma SlicePicksExactly(n: nat, sl: Slice, i: nat)
    ensures
      var m: int := n;
      var lo: int := if sl.lo.None? then 0 else if 0 <= sl.lo.value <= m then sl.lo.value
                     else if sl.lo.value > m then m else if -m <= sl.lo.value then sl.lo.value + m else 0;
      var hi: int := if sl.hi.None? then m else if 0 <= sl.hi.value <= m then sl.hi.value
                     else if sl.hi.value > m then m else if -m <= sl.hi.value then sl.hi.value + m else 0;
      var picks := SlicePicks(n, sl);
      && (i < |picks| ==> picks[i] == lo + i * sl.step && picks[i] < hi)
      && hi <= lo + |picks| * sl.step
  {
    EveryExactly(Clamp(n, sl.lo, 0), Clamp(n, sl.hi, n), sl.step, i);
    hide Every;
  }

  /** A negative or zero step is refused before either factor is touched. */
  datatype Bounds = Bounds(lo: Option<int>, hi: Option<int>, step: nat)

  type Slice = sl: Bounds | sl.step > 0 witness Bounds(None, None, 1)

  /** A slice without a tuple goes to both factors of a batched tensor, and to the rows of a matrix. */
  function BareSlice(l: Lora, sl: Slice): Lora
    requires Valid(l)
  {
    var b := Take(l.b, 0, SlicePicks(l.b.shape[0], sl));
    if |l.b.shape| > 2 then Lora(Take(l.a, 0, SlicePicks(l.a.shape[0], sl)), b) else Lora(l.a, b)
  }

  /** The slice takes in position 0 of one. */
  predicate TakesOnly(sl: Slice) {
    (sl.lo.None? || sl.lo.value <= 0) && (sl.hi.None? || sl.hi.value >= 1)
  }

  lemma PicksOfOne(sl: Slice)
    ensures SlicePicks(1, sl) == if TakesOnly(sl) then [0] else []
  {
    var picks := SlicePicks(1, sl);
    assert Clamp(1, sl.lo, 0) == 0 || Clamp(1, sl.lo, 0) == 1;
    assert Clamp(1, sl.hi, 1) == 0 || Clamp(1, sl.hi, 1) == 1;
  }

  /** The factors of a bare slice pass the constructor, and their product exists and is the slice of the product. */
  ghost predicate SlicesRight(l: Lora, sl: Slice)
    requires Valid(l)
  {
    var m := BareSlice(l, sl);
    && Constructs(m.a, m.b)
    && Multiplies(m)
    && Product(l).shape == Shape(l)
    && Same(Batched(m), Take(Product(l), 0, SlicePicks(l.b.shape[0], sl)))
  }

  /**
   A bare slice is right exactly if the tensor is a matrix, the slice takes in position 0 of one, or it is empty:
   any other one, though accepted, empties the right factor alone.
   */
  lemma BareSliceIsRightExactly(l: Lora, sl: Slice)
    requires Valid(l)
    ensures Constructs(BareSlice(l, sl).a, BareSlice(l, sl).b)
    ensures SlicesRight(l, sl) <==> |l.b.shape| == 2 || TakesOnly(sl) || SlicePicks(l.b.shape[0], sl) == []
  {
    if |l.b.shape| == 2 {
      MatrixSlice(l, sl);
    } else if TakesOnly(sl) {
      OnlySlice(l, sl);
    } else {
      LeadingOnes(l);
      PicksOfOne(sl);
      hide Same, Batched, Product, Shape;
      if SlicePicks(l.b.shape[0], sl) == [] {
        EmptySlice(l, sl);
      } else {
        var m := BareSlice(l, sl);
        assert m.a.shape[0] == 0 && m.b.shape[0] > 0;
      }
    }
  }

  lemma MatrixSlice(l: Lora, sl: Slice)
    requires Valid(l) && |l.b.shape| == 2
    ensures SlicesRight(l, sl)
  {
    var picks := SlicePicks(l.b.shape[0], sl);
    ProductShape(l);
    TakeProduct(l, 0, picks);
    TakeValid(l, 0, picks);
    BatchedTake(l, BareSlice(l, sl), picks);
    hide Same, Batched, Product;
  }

  lemma OnlySlice(l: Lora, sl: Slice)
    requires Valid(l) && |l.b.shape| > 2 && TakesOnly(sl)
    ensures SlicesRight(l, sl)
  {
    var picks := SlicePicks(l.b.shape[0], sl);
    ProductShape(l);
    OnlyPosition(l, sl);
    TakeProduct(l, 0, picks);
    TakeValid(l, 0, picks);
    TakenRight(l, sl, picks);
    hide Same, Batched, Product;
  }

  /** The factors of the slice are the factors the chains use. */
  lemma BatchedTake(l: Lora, m: Lora, picks: seq<nat>)
    requires Valid(l) && m == TakeLora(l, 0, picks) && Valid(m) && Product(l).shape == Shape(l)
    requires Same(Product(m), Take(Product(l), 0, picks))
    ensures Multiplies(m) && Same(Batched(m), Take(Product(l), 0, picks))
  {
    BatchedIsProduct(m);
    hide Batched, Product, Take;
    SameTransitive(Batched(m), Product(m), Take(Product(l), 0, picks));
  }

  lemma TakenRight(l: Lora, sl: Slice, picks: seq<nat>)
    requires Valid(l) && |l.b.shape| > 2 && picks == SlicePicks(l.b.shape[0], sl) && Product(l).shape == Shape(l)
    requires Same(BareSlice(l, sl).a, l.a)
    requires Valid(TakeLora(l, 0, picks)) && Same(Product(TakeLora(l, 0, picks)), Take(Product(l), 0, picks))
    ensures Multiplies(BareSlice(l, sl)) && Same(Batched(BareSlice(l, sl)), Take(Product(l), 0, picks))
  {
    var m, t := BareSlice(l, sl), TakeLora(l, 0, picks);
    assert m.b == t.b && t.a == l.a && Valid(m);
    BatchedIsProduct(m);
    SameRightFactor(m, t);
    hide Batched, Product, Take, BareSlice, TakeLora;
    SameTransitive(Batched(m), Product(m), Product(t));
    SameTransitive(Batched(m), Product(t), Take(Product(l), 0, picks));
  }

  /** Empty on both sides, the factors still multiply, to the empty slice. */
  lemma EmptySlice(l: Lora, sl: Slice)
    requires Valid(l) && |l.b.shape| > 2 && SlicePicks(l.b.shape[0], sl) == [] && SlicePicks(l.a.shape[0], sl) == []
    ensures SlicesRight(l, sl)
  {
    ProductShape(l);
    var n, m := |l.b.shape|, BareSlice(l, sl);
    LeadingOnes(l);
    assert m.a.shape[0] == 0 && m.b.shape[0] == 0;
    var t := Take(Product(l), 0, []);
    assert Batched(m).shape == t.shape;
    NoEntries(Batched(m), t);
  }

  lemma NoEntries(t: Tensor, u: Tensor)
    requires t.shape == u.shape && t.shape != [] && t.shape[0] == 0
    ensures Same(t, u)
  {
    forall idx ensures !InBounds(t.shape, idx) {
      assert |idx| == |t.shape| ==> idx[0] >= t.shape[0];
    }
  }

  /** Taking the one position there is changes nothing. */
  lemma OnlyPosition(l: Lora, sl: Slice)
    requires Valid(l) && |l.b.shape| > 2 && TakesOnly(sl)
    ensures Same(BareSlice(l, sl).a, l.a)
  {
    assert l.a.shape[..|l.b.shape| - 2][0] == 1;
    PicksOfOne(sl);
    var u := Take(l.a, 0, [0]);
    assert u.shape == l.a.shape;
    forall idx | InBounds(u.shape, idx) ensures u.at(idx) == l.a.at(idx) {
      assert idx[0 := 0] == idx;
    }
  }

  /** Only the entries of the right factor matter. */
  lemma SameRightFactor(l: Lora, m: Lora)
    requires Valid(l) && Valid(m) && l.b == m.b && Same(l.a, m.a)
    ensures Same(Product(l), Product(m))
  {
    ProductShape(l);
    ProductShape(m);
    forall p, j | InBounds(Shape(l), p + [j]) ensures Entry(l, p, j) == Product(m).at(p + [j]) {
      forall k: nat | k < Rank(l) ensures l.a.at(InA(l, k, j)) == m.a.at(InA(m, k, j)) {
        RightIndex(l, k, j, p);
      }
      EntriesEqual(l, p, j, m, p, j);
      ProductAt(m, p, j);
    }
    hide Product;
    IsProduct(l, Product(m));
  }

  lemma RightIndex(l: Lora, k: nat, j: nat, p: seq<nat>)
    requires Valid(l) && k < Rank(l) && InBounds(Shape(l), p + [j])
    ensures InBounds(l.a.shape, InA(l, k, j))
  {
    var n := |l.a.shape|;
    assert (p + [j])[n - 1] == j;
    forall i | 0 <= i < n ensures InA(l, k, j)[i] < l.a.shape[i] {
      if i < n - 2 {
        assert l.a.shape[..n - 2][i] == 1;
      }
    }
  }

  // ----- Bare positions -------------------------------------------------------

  /** One position of a batched tensor, asked of both factors; a matrix has no such part. */
  function BareAt(l: Lora, i: int): Option<Lora>
    requires Valid(l)
  {
    var n, one := l.b.shape[0], l.a.shape[0];
    if |l.b.shape| <= 2 || !(-n <= i < n) || !(-one <= i < one) then None
    else Some(Lora(Pick(l.a, 0, i % one), Pick(l.b, 0, i % n)))
  }

  /** Only positions 0 and -1 are granted, as the right factor has one; those pick that part of the product. */
  lemma BareAtExactly(l: Lora, i: int)
    requires Valid(l) && |l.b.shape| > 2
    ensures BareAt(l, i).Some? <==> (i == 0 || i == -1) && l.b.shape[0] > 0
    ensures BareAt(l, i).Some? ==>
              && Product(l).shape == Shape(l) && Valid(BareAt(l, i).value)
              && Same(Product(BareAt(l, i).value), Pick(Product(l), 0, i % l.b.shape[0]))
  {
    assert l.a.shape[..|l.b.shape| - 2][0] == 1;
    ProductShape(l);
    if BareAt(l, i).Some? {
      var j := i % l.b.shape[0];
      PickValid(l, 0, j);
      PickProduct(l, 0, j);
      assert i % 1 == 0;
      assert BareAt(l, i).value == PickLora(l, 0, j);
    }
  }

  /** Of every batch of two or more, `[1:2]` is sliced wrong, and position 1 refused. */
  lemma SecondOfBatch(l: Lora)
    requires Valid(l) && |l.b.shape| > 2 && l.b.shape[0] >= 2
    ensures !SlicesRight(l, Bounds(Some(1), Some(2), 1))
    ensures BareAt(l, 1) == None
  {
    var sl := Bounds(Some(1), Some(2), 1);
    assert SlicePicks(l.b.shape[0], sl) == [1];
    BareSliceIsRightExactly(l, sl);
    BareAtExactly(l, 1);
  }

  // ----- Tuples with single positions of rows or columns ----------------------

  /** An index with one component a dimension, refused if a position is out of range or the constructor refuses the factors. */
  function ItemOf(l: Lora, ixs: seq<Index>): Option<Lora>
    requires Valid(l) && |ixs| == |l.b.shape|
  {
    var m := GetItem(l, ixs);
    if Constructs(m.a, m.b) then Some(m) else None
  }

  /** How many dimensions an index drops. */
  function Dropped(ixs: seq<Index>): nat {
    if ixs == [] then 0 else Dropped(ixs[..|ixs| - 1]) + (if ixs[|ixs| - 1].At? then 1 else 0)
  }

  /** Single positions are in range of the dimensions they index. */
  predicate Reaches(shape: seq<nat>, ixs: seq<Index>) {
    |ixs| <= |shape| && forall d :: 0 <= d < |ixs| ==> ixs[d].At? ==> -shape[d] <= ixs[d].j < shape[d]
  }

  /** What an index leaves of the dimensions it has components for. */
  function Kept(shape: seq<nat>, ixs: seq<Index>): (r: seq<nat>)
    requires |shape| == |ixs|
    ensures |r| == |ixs| - Dropped(ixs)
  {
    if ixs == [] then []
    else
      var d := |ixs| - 1;
      Kept(shape[..d], ixs[..d]) + DimKept(shape[d], ixs[d])
  }

  function DimKept(size: nat, ix: Index): seq<nat> {
    match ix
    case Full => [size]
    case Positions(picks) => [|picks|]
    case At(_) => []
  }

  lemma {:induction false} IndexedShape(t: Tensor, ixs: seq<Index>)
    requires Reaches(t.shape, ixs)
    ensures IndexAll(t, ixs).shape == Kept(t.shape[..|ixs|], ixs) + t.shape[|ixs|..]
    decreases |ixs|
  {
    hide *;
    if ixs == [] {
      NothingIndexed(t);
    } else {
      var d := |ixs| - 1;
      ReachesFront(t, ixs);
      var u := IndexDim(t, d, ixs[d]);
      OneDimShape(t, d, ixs[d]);
      IndexedShape(u, ixs[..d]);
      LastIndexed(t, ixs, u);
    }
  }

  lemma NothingIndexed(t: Tensor)
    ensures IndexAll(t, []).shape == Kept(t.shape[..0], []) + t.shape[0..]
  {
  }

  lemma ReachesFront(t: Tensor, ixs: seq<Index>)
    requires ixs != [] && Reaches(t.shape, ixs)
    ensures
      var d := |ixs| - 1;
      d < |t.shape| && (ixs[d].At? ==> -t.shape[d] <= ixs[d].j < t.shape[d]) && Reaches(IndexDim(t, d, ixs[d]).shape, ixs[..d])
  {
    var d := |ixs| - 1;
    OneDimShape(t, d, ixs[d]);
    var u := IndexDim(t, d, ixs[d]);
    hide IndexDim, DimKept;
    assert forall i :: 0 <= i < d ==> u.shape[i] == u.shape[..d][i] == t.shape[..d][i] == t.shape[i];
  }

  lemma LastIndexed(t: Tensor, ixs: seq<Index>, u: Tensor)
    requires 0 < |ixs| <= |t.shape| && u == IndexDim(t, |ixs| - 1, ixs[|ixs| - 1])
    requires
      var d := |ixs| - 1;
      && |u.shape| >= d && u.shape[..d] == t.shape[..d]
      && u.shape[d..] == DimKept(t.shape[d], ixs[d]) + t.shape[d + 1..]
      && IndexAll(u, ixs[..d]).shape == Kept(u.shape[..d], ixs[..d]) + u.shape[d..]
    ensures IndexAll(t, ixs).shape == Kept(t.shape[..|ixs|], ixs) + t.shape[|ixs|..]
  {
    hide IndexDim, DimKept;
    var d := |ixs| - 1;
    var front := t.shape[..d + 1];
    assert front[..d] == t.shape[..d] && front[d] == t.shape[d];
    assert Kept(front, ixs) == Kept(t.shape[..d], ixs[..d]) + DimKept(t.shape[d], ixs[d]);
    assert IndexAll(t, ixs) == IndexAll(u, ixs[..d]);
    hide Kept, IndexAll;
    Regrouped(Kept(t.shape[..d], ixs[..d]), DimKept(t.shape[d], ixs[d]), t.shape[d + 1..]);
  }

  lemma Regrouped(a: seq<nat>, b: seq<nat>, c: seq<nat>)
    ensures a + (b + c) == (a + b) + c
  {
  }

  lemma OneDimShape(t: Tensor, d: nat, ix: Index)
    requires d < |t.shape| && (ix.At? ==> -t.shape[d] <= ix.j < t.shape[d])
    ensures var u := IndexDim(t, d, ix);
            && |u.shape| >= d && u.shape[..d] == t.shape[..d]
            && u.shape[d..] == DimKept(t.shape[d], ix) + t.shape[d + 1..]
  {
  }

  predicate Leading(ixs: seq<Index>) { forall d :: 0 <= d < |ixs| ==> ixs[d].Full? || ixs[d] == At(0) }

  /** Dimensions of one, kept or dropped, stay dimensions of one. */
  lemma {:induction false} OnesStay(shape: seq<nat>, ixs: seq<Index>)
    requires |shape| == |ixs| && AllOnes(shape) && Leading(ixs)
    ensures AllOnes(Kept(shape, ixs))
  {
    if ixs != [] {
      OnesStay(shape[..|ixs| - 1], ixs[..|ixs| - 1]);
    }
  }

  lemma ReachesOnes(shape: seq<nat>, ixs: seq<Index>)
    requires |ixs| <= |shape| && AllOnes(shape[..|ixs|]) && Leading(ixs)
    ensures Reaches(shape, ixs)
  {
    forall d | 0 <= d < |ixs| ensures ixs[d].At? ==> -shape[d] <= ixs[d].j < shape[d] {
      assert shape[d] == shape[..|ixs|][d];
    }
  }

  lemma {:induction false} LeadDrops(ixs: seq<Index>)
    ensures Dropped(LeadIndices(ixs)) == Dropped(ixs) && Leading(LeadIndices(ixs)) && Dropped(ixs) <= |ixs|
  {
    if ixs != [] {
      var d := |ixs| - 1;
      assert LeadIndices(ixs)[..d] == LeadIndices(ixs[..d]);
      LeadDrops(ixs[..d]);
    }
  }

  /** The shapes of the indexed factors, for any row and column component. */
  lemma ItemShapes(l: Lora, ixs: seq<Index>)
    requires Valid(l) && |ixs| == |l.b.shape| && Reaches(Shape(l), ixs)
    ensures
      var n, m := |ixs|, GetItem(l, ixs);
      var kept := n - 2 - Dropped(ixs[..n - 2]);
      && kept >= 0
      && |m.a.shape| == kept + (if ixs[n - 1].At? then 1 else 2)
      && |m.b.shape| == kept + (if ixs[n - 2].At? then 1 else 2)
      && AllOnes(m.a.shape[..kept]) && m.a.shape[kept] == Rank(l)
      && m.b.shape[|m.b.shape| - 1] == Rank(l)
  {
    RightShape(l, ixs);
    LeftShape(l, ixs);
  }

  lemma RightShape(l: Lora, ixs: seq<Index>)
    requires Valid(l) && |ixs| == |l.b.shape| && Reaches(Shape(l), ixs)
    ensures
      var n, a := |ixs|, GetItem(l, ixs).a;
      var kept := n - 2 - Dropped(ixs[..n - 2]);
      && kept >= 0
      && |a.shape| == kept + (if ixs[n - 1].At? then 1 else 2)
      && AllOnes(a.shape[..kept]) && a.shape[kept] == Rank(l)
  {
    var n := |ixs|;
    var front := LeadIndices(ixs[..n - 2]);
    var t := IndexDim(l.a, n - 1, ixs[n - 1]);
    LeadDrops(ixs[..n - 2]);
    ColumnsFirst(l.a, front, ixs[n - 1]);
    assert |t.shape| == n - (if ixs[n - 1].At? then 1 else 0);
    assert t.shape[..n - 2] == l.a.shape[..n - 2] && t.shape[n - 2] == Rank(l);
    var a := GetItem(l, ixs).a;
    assert a == IndexAll(t, front);
    hide GetItem, IndexAll, Kept, IndexDim, LeadIndices;
    ReachesOnes(t.shape, front);
    OnesStay(t.shape[..n - 2], front);
    IndexedShape(t, front);
    var kept := Kept(t.shape[..n - 2], front);
    assert a.shape == kept + t.shape[n - 2..] && a.shape[..|kept|] == kept;
  }

  lemma LeftShape(l: Lora, ixs: seq<Index>)
    requires Valid(l) && |ixs| == |l.b.shape| && Reaches(Shape(l), ixs)
    ensures
      var n, b := |ixs|, GetItem(l, ixs).b;
      && |b.shape| == n - 1 - Dropped(ixs[..n - 2]) + (if ixs[n - 2].At? then 0 else 1)
      && b.shape != [] && b.shape[|b.shape| - 1] == Rank(l)
  {
    var n := |ixs|;
    RowsReach(l, ixs);
    IndexedShape(l.b, ixs[..n - 1]);
    assert ixs[..n - 1][..n - 2] == ixs[..n - 2];
    hide IndexAll, Kept;
  }

  lemma ColumnsFirst(t: Tensor, front: seq<Index>, column: Index)
    requires |t.shape| == |front| + 2
    ensures IndexAll(t, front + [Full, column]) == IndexAll(IndexDim(t, |front| + 1, column), front)
  {
    var n := |front| + 2;
    var ixs := front + [Full, column];
    assert ixs[..n - 1] == front + [Full] && (front + [Full])[..n - 2] == front;
    var u := IndexDim(t, n - 1, column);
    assert IndexAll(t, ixs) == IndexAll(u, front + [Full]);
    assert IndexAll(u, front + [Full]) == IndexAll(IndexDim(u, n - 2, Full), front);
  }

  lemma RowsReach(l: Lora, ixs: seq<Index>)
    requires Valid(l) && |ixs| == |l.b.shape| && Reaches(Shape(l), ixs)
    ensures Reaches(l.b.shape, ixs[..|ixs| - 1])
  {
    var n := |ixs|;
    assert forall d :: 0 <= d < n - 1 ==> Shape(l)[d] == l.b.shape[d];
  }

  /**
   A tuple in range is granted exactly if it takes single positions of neither the rows nor the columns, or of
   both, a leading dimension is left, and the rank is one; the latter factors claim a dimension too many.
   */
  lemma ItemIsGrantedExactly(l: Lora, ixs: seq<Index>)
    requires Valid(l) && |ixs| == |l.b.shape| && Reaches(Shape(l), ixs)
    ensures
      var n := |ixs|;
      var row, column, kept := ixs[n - 2].At?, ixs[n - 1].At?, n - 2 - Dropped(ixs[..n - 2]);
      && (ItemOf(l, ixs).Some? <==> (!row && !column) || (row && column && kept > 0 && Rank(l) == 1))
      && (ItemOf(l, ixs).Some? ==> |ItemOf(l, ixs).value.b.shape| == n - Dropped(ixs) + (if row then 1 else 0))
  {
    ItemShapes(l, ixs);
    hide GetItem;
    var n := |ixs|;
    assert ixs[..n - 1][..n - 2] == ixs[..n - 2];
    assert Dropped(ixs) == Dropped(ixs[..n - 1]) + (if ixs[n - 1].At? then 1 else 0);
    assert Dropped(ixs[..n - 1]) == Dropped(ixs[..n - 2]) + (if ixs[n - 2].At? then 1 else 0);
    var m, kept := GetItem(l, ixs), n - 2 - Dropped(ixs[..n - 2]);
    if kept > 0 {
      assert m.a.shape[kept - 1] == m.a.shape[..kept][kept - 1] == 1;
    }
  }
}
