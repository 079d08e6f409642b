/** Reordering the axes of a factored weight (permute, transpose, swapaxes). */
module Permuting {
  import opened Wrappers
  import opened Tensors
  import opened LowRank

  /** dims names every axis of an n-d tensor once. */
  predicate IsPermutation(dims: seq<int>, n: nat) {
    && |dims| == n
    && (forall i :: 0 <= i < n ==> 0 <= dims[i] < n)
    && (forall i, j :: 0 <= i < j < n ==> dims[i] != dims[j])
  }

  /** Where axis j of the source went. */
  function Where(dims: seq<int>, j: int): (i: nat)
    ensures j in dims ==> i < |dims| && dims[i] == j
  {
    if dims == [] || dims[0] == j then 0 else 1 + Where(dims[1..], j)
  }

  function Below(n: nat): (r: set<int>)
    ensures |r| == n
    ensures forall i :: i in r <==> 0 <= i < n
  {
    if n == 0 then {} else Below(n - 1) + {n - 1}
  }

  lemma Pigeonhole(s: seq<int>, n: nat, j: int)
    requires IsPermutation(s, n) && 0 <= j < n
    ensures j in s
  {
    var got := set x | x in s;
    Distinct(s);
    assert got <= Below(n);
    SubsetSize(got, Below(n));
    assert j in got;
  }

  lemma Distinct(s: seq<int>)
    requires forall i, j :: 0 <= i < j < |s| ==> s[i] != s[j]
    ensures |set x | x in s| == |s|
  {
    if s != [] {
      Distinct(s[1..]);
      assert (set x | x in s) == (set x | x in s[1..]) + {s[0]};
      assert s[0] !in s[1..];
    }
  }

  lemma SubsetSize(a: set<int>, b: set<int>)
    requires a <= b && |a| == |b|
    ensures a == b
  {
    assert |b - a| == |b| - |a|;
    assert b == a + (b - a);
  }

  /** The source index of an entry of the permuted tensor: axis dims[i] of it is axis i of idx. */
  function Unpermute(dims: seq<int>, idx: Index): (src: Index)
    ensures |src| == |dims|
  {
    seq(|dims|, j requires 0 <= j < |dims| =>
      if Where(dims, j) < |idx| then idx[Where(dims, j)] else 0)
  }

  function PermutedShape(shape: Shape, dims: seq<int>): Shape
    requires IsPermutation(dims, |shape|)
  {
    seq(|dims|, i requires 0 <= i < |dims| => shape[dims[i]])
  }

  /** torch.permute */
  function PermuteTensor(t: Tensor, dims: seq<int>): (t': Tensor)
    requires Valid(t) && IsPermutation(dims, |t.shape|)
    ensures Valid(t') && t'.shape == PermutedShape(t.shape, dims)
  {
    Remap(t, PermutedShape(t.shape, dims), idx => Unpermute(dims, idx))
  }

  lemma WhereIs(dims: seq<int>, n: nat, i: nat)
    requires IsPermutation(dims, n) && i < n
    ensures Where(dims, dims[i]) == i
  {
  }

  lemma UnpermuteInShape(dims: seq<int>, shape: Shape, idx: Index)
    requires IsPermutation(dims, |shape|) && InShape(idx, PermutedShape(shape, dims))
    ensures InShape(Unpermute(dims, idx), shape)
    ensures forall i :: 0 <= i < |dims| ==> Unpermute(dims, idx)[dims[i]] == idx[i]
  {
    forall j | 0 <= j < |shape|
      ensures Unpermute(dims, idx)[j] < shape[j]
    {
      Pigeonhole(dims, |shape|, j);
    }
    forall i | 0 <= i < |dims|
      ensures Unpermute(dims, idx)[dims[i]] == idx[i]
    {
      WhereIs(dims, |shape|, i);
    }
  }

  /** torch.permute moves axis dims[i] to place i. */
  lemma PermuteTensorAt(t: Tensor, dims: seq<int>, idx: Index)
    requires Valid(t) && IsPermutation(dims, |t.shape|) && InShape(idx, PermutedShape(t.shape, dims))
    ensures InShape(Unpermute(dims, idx), t.shape)
    ensures At(PermuteTensor(t, dims), idx) == At(t, Unpermute(dims, idx))
  {
    UnpermuteInShape(dims, t.shape, idx);
    RemapAt(t, PermutedShape(t.shape, dims), i => Unpermute(dims, i), idx);
  }

  predicate AllOnes(shape: Shape) {
    forall i :: 0 <= i < |shape| ==> shape[i] == 1
  }

  predicate LeadingOnes(A: Tensor) {
    |A.shape| >= 2 && AllOnes(A.shape[..|A.shape| - 2])
  }

  /** Axis numbers counted from the end, as the code rewrites them. */
  function FromTheEnd(dims: seq<int>, n: nat): (ds: seq<int>)
    ensures |ds| == |dims|
  {
    seq(|dims|, i requires 0 <= i < |dims| => if dims[i] >= 0 then dims[i] - n else dims[i])
  }

  /** The axes the rewritten numbers name: those still not negative count from the front. */
  function Axes(dims: seq<int>, n: nat): (ds: seq<int>)
    ensures |ds| == |dims|
  {
    var ds := FromTheEnd(dims, n);
    seq(|dims|, i requires 0 <= i < |dims| => if ds[i] >= 0 then ds[i] else ds[i] + n)
  }

  /** The number names axis a in one of the two usual ways. */
  predicate Names(dim: int, a: int, n: nat) {
    dim == a || dim == a - n
  }

  predicate FixesLast(dims: seq<int>, n: nat) {
    IsPermutation(dims, n) && n >= 1 && dims[n - 1] == n - 1
  }

  lemma PermutedShapeSnoc(shape: Shape, m: nat, m': nat, dims: seq<int>)
    requires FixesLast(dims, |shape| + 1)
    ensures PermutedShape(shape + [m'], dims) == PermutedShape(shape + [m], dims)[..|shape|] + [m']
    ensures PermutedShape(shape + [m], dims)[|shape|] == m
  {
    var n := |shape|;
    forall i | 0 <= i < n
      ensures PermutedShape(shape + [m'], dims)[i] == PermutedShape(shape + [m], dims)[i]
    {
      assert dims[i] != dims[n];
    }
  }

  lemma UnpermuteSnoc(dims: seq<int>, n: nat, idx: Index, i: nat, i': nat)
    requires FixesLast(dims, n) && |idx| + 1 == n
    ensures Unpermute(dims, idx + [i'])[..n - 1] == Unpermute(dims, idx + [i])[..n - 1]
    ensures Unpermute(dims, idx + [i'])[n - 1] == i'
  {
    WhereIs(dims, n, n - 1);
    forall j | 0 <= j < n - 1
      ensures Unpermute(dims, idx + [i'])[j] == Unpermute(dims, idx + [i])[j]
    {
      Pigeonhole(dims, n, j);
    }
  }

  /** Permuting B alone, the last axis staying last. */
  function PermuteB(l: Factors, dims: seq<int>): (l': Factors)
    requires Proper(l) && LeadingOnes(l.A) && FixesLast(dims, Dims(l))
    ensures Proper(l') && ShapeOf(l') == PermutedShape(ShapeOf(l), dims) && Rank(l') == Rank(l)
  {
    var n := Dims(l);
    assert l.B.shape == l.B.shape[..n - 1] + [Rank(l)];
    PermutedShapeSnoc(l.B.shape[..n - 1], Rank(l), l.A.shape[n - 1], dims);
    Factors(l.A, PermuteTensor(l.B, dims))
  }

  lemma PermuteBIndices(l: Factors, dims: seq<int>, idx: Index, r: nat)
    requires Proper(l) && LeadingOnes(l.A) && FixesLast(dims, Dims(l))
    requires InShape(idx, ShapeOf(PermuteB(l, dims))) && r < Rank(l)
    ensures IndexB(Unpermute(dims, idx), r) == Unpermute(dims, IndexB(idx, r))
    ensures IndexA(l.A.shape, Unpermute(dims, idx), r) == IndexA(l.A.shape, idx, r)
  {
    var n := Dims(l);
    assert idx == idx[..n - 1] + [idx[n - 1]];
    UnpermuteSnoc(dims, n, idx[..n - 1], idx[n - 1], r);
    UnpermuteSnoc(dims, n, idx[..n - 1], r, idx[n - 1]);
  }

  lemma PermuteBTerm(l: Factors, dims: seq<int>, idx: Index, r: nat)
    requires Proper(l) && LeadingOnes(l.A) && FixesLast(dims, Dims(l))
    requires InShape(idx, ShapeOf(PermuteB(l, dims))) && r < Rank(l)
    ensures InShape(Unpermute(dims, idx), ShapeOf(l))
    ensures Term(PermuteB(l, dims), idx, r) == Term(l, Unpermute(dims, idx), r)
  {
    var l', src := PermuteB(l, dims), Unpermute(dims, idx);
    UnpermuteInShape(dims, ShapeOf(l), idx);
    IndicesInShape(l', idx, r);
    IndicesInShape(l, src, r);
    PermuteBIndices(l, dims, idx, r);
    assert At(l'.B, IndexB(idx, r)) == At(l.B, IndexB(src, r)) by {
      PermuteTensorAt(l.B, dims, IndexB(idx, r));
    }
    TermsMeet(l', idx, l, src, r);
  }

  lemma PermuteBDense(l: Factors, dims: seq<int>)
    requires Proper(l) && LeadingOnes(l.A) && FixesLast(dims, Dims(l))
    ensures Dense(PermuteB(l, dims)) == PermuteTensor(Dense(l), dims)
  {
    var l' := PermuteB(l, dims);
    var g := idx => Unpermute(dims, idx);
    forall idx | InShape(idx, ShapeOf(l'))
      ensures Follows(l, l', g, idx)
    {
      UnpermuteInShape(dims, ShapeOf(l), idx);
      forall r | 0 <= r < Rank(l)
        ensures Terms(l', idx)[r] == Terms(l, g(idx))[r]
      {
        PermuteBTerm(l, dims, idx, r);
      }
    }
    FactorsFollow(l, l', g);
  }

  // ----- Transposing a matrix

  /** B A transposed is A transposed times B transposed. */
  function SwapFactors(l: Factors): (l': Factors)
    requires Proper(l) && Dims(l) == 2
    ensures Proper(l') && ShapeOf(l') == PermutedShape(ShapeOf(l), [1, 0]) && Rank(l') == Rank(l)
  {
    Factors(PermuteTensor(l.B, [1, 0]), PermuteTensor(l.A, [1, 0]))
  }

  lemma TransposedAt(t: Tensor, i: nat, j: nat)
    requires Valid(t) && |t.shape| == 2 && i < t.shape[0] && j < t.shape[1]
    ensures At(PermuteTensor(t, [1, 0]), [j, i]) == At(t, [i, j])
  {
    hide Ravel, Prod, At, PermuteTensor;
    PermuteTensorAt(t, [1, 0], [j, i]);
    WhereIs([1, 0], 2, 0);
    WhereIs([1, 0], 2, 1);
    assert Unpermute([1, 0], [j, i]) == [i, j];
  }

  lemma MatrixTerm(l: Factors, i: nat, j: nat, r: nat, b: real, a: real)
    requires Proper(l) && Dims(l) == 2 && i < ShapeOf(l)[0] && j < ShapeOf(l)[1] && r < Rank(l)
    requires b == At(l.B, [i, r]) && a == At(l.A, [r, j])
    ensures Term(l, [i, j], r) == b * a
  {
    assert IndexB([i, j], r) == [i, r] && IndexA(l.A.shape, [i, j], r) == [r, j];
  }

  lemma Commute(a: real, b: real)
    ensures a * b == b * a
  {
  }

  lemma SwapFactorsTerm(l: Factors, i: nat, j: nat, r: nat)
    requires Proper(l) && Dims(l) == 2 && i < ShapeOf(l)[0] && j < ShapeOf(l)[1] && r < Rank(l)
    ensures Term(SwapFactors(l), [j, i], r) == Term(l, [i, j], r)
  {
    var a, b := At(l.A, [r, j]), At(l.B, [i, r]);
    TransposedAt(l.A, r, j);
    TransposedAt(l.B, i, r);
    MatrixTerm(l, i, j, r, b, a);
    MatrixTerm(SwapFactors(l), j, i, r, a, b);
    Commute(a, b);
  }

  lemma SwapFactorsDense(l: Factors)
    requires Proper(l) && Dims(l) == 2
    ensures Dense(SwapFactors(l)) == PermuteTensor(Dense(l), [1, 0])
  {
    hide Ravel, Prod, At, Dense, Term;
    var l' := SwapFactors(l);
    var g := idx => Unpermute([1, 0], idx);
    forall idx | InShape(idx, ShapeOf(l'))
      ensures Follows(l, l', g, idx)
    {
      var j, i := idx[0], idx[1];
      WhereIs([1, 0], 2, 0);
      WhereIs([1, 0], 2, 1);
      assert idx == [j, i] && g(idx) == [i, j];
      forall r | 0 <= r < Rank(l)
        ensures Terms(l', idx)[r] == Terms(l, g(idx))[r]
      {
        SwapFactorsTerm(l, i, j, r);
      }
    }
    FactorsFollow(l, l', g);
  }

  // ----- The operations

  function Permute(l: Factors, dims: seq<int>): (r: Result<Factors, Error>)
    requires Proper(l)
    ensures r.Ok? ==> Proper(r.value) && Rank(r.value) == Rank(l)
  {
    var n := Dims(l);
    var ds := FromTheEnd(dims, n);
    if ds == [] then Err(IndexOutOfRange)
    else if ds[|ds| - 1] == -1 then
      if !LeadingOnes(l.A) then Err(AssertionFailed)
      else if !IsPermutation(Axes(dims, n), n) then Err(TorchError)
      else Ok(PermuteB(l, Axes(dims, n)))
    else if n == 2 && ds[|ds| - 1] == -2 && |ds| == 1 then Err(IndexOutOfRange)
    else if n == 2 && ds[|ds| - 1] == -2 && ds[|ds| - 2] == -1 then
      if !IsPermutation(Axes(dims, n), n) then Err(TorchError)
      else Ok(Factors(PermuteTensor(l.B, Axes(dims, n)), PermuteTensor(l.A, Axes(dims, n))))
    else Err(NotImplemented)
  }

  /**
   The requests permute carries out: the last axis stays, named as usual, and A has no other axes, or a matrix is
   transposed, both axes named as usual. Other axes may be numbered up to 2 n - 1.
   */
  predicate CanPermute(l: Factors, dims: seq<int>)
    requires Proper(l)
  {
    var n := Dims(l);
    && IsPermutation(Axes(dims, n), n)
    && if Names(dims[n - 1], n - 1, n) then LeadingOnes(l.A) else n == 2 && Names(dims[0], 1, 2) && Names(dims[1], 0, 2)
  }

  lemma NumberMeans(dims: seq<int>, n: nat, i: nat)
    requires i < |dims| && n >= 2
    ensures FromTheEnd(dims, n)[i] == -1 <==> Names(dims[i], n - 1, n)
    ensures FromTheEnd(dims, n)[i] == -2 <==> Names(dims[i], n - 2, n)
    ensures FromTheEnd(dims, n)[i] == -1 ==> Axes(dims, n)[i] == n - 1
    ensures FromTheEnd(dims, n)[i] == -2 ==> Axes(dims, n)[i] == n - 2
  {
  }

  lemma PermuteAccepts(l: Factors, dims: seq<int>)
    requires Proper(l)
    ensures Permute(l, dims).Ok? <==> CanPermute(l, dims)
  {
    hide PermuteB, PermuteTensor, FromTheEnd, Axes, LeadingOnes;
    var n := Dims(l);
    if dims != [] {
      NumberMeans(dims, n, |dims| - 1);
      if |dims| >= 2 {
        NumberMeans(dims, n, |dims| - 2);
      }
    }
  }

  /** permute is carried out exactly then, and means the same permutation of the product. */
  lemma PermuteMeaning(l: Factors, dims: seq<int>)
    requires Proper(l)
    ensures Permute(l, dims).Ok? <==> CanPermute(l, dims)
    ensures Permute(l, dims).Ok? ==>
              var l' := Permute(l, dims).value;
              && Proper(l')
              && Dense(l') == PermuteTensor(Dense(l), Axes(dims, Dims(l)))
  {
    hide PermuteTensor, Dense, PermuteB, FromTheEnd, Axes, LeadingOnes;
    var n := Dims(l);
    var axes := Axes(dims, n);
    PermuteAccepts(l, dims);
    if Permute(l, dims).Ok? {
      NumberMeans(dims, n, n - 1);
      NumberMeans(dims, n, n - 2);
      if FromTheEnd(dims, n)[n - 1] == -1 {
        PermuteBDense(l, axes);
      } else {
        assert axes == [1, 0];
        SwapFactorsDense(l);
      }
    }
  }

  /** An axis number from n on is taken once more from the front. */
  lemma LargeNumbers(l: Factors)
    requires Proper(l) && Dims(l) == 3 && LeadingOnes(l.A)
    ensures Permute(l, [3, 4, -1]).Ok? && Axes([3, 4, -1], 3) == [0, 1, 2]
  {
    hide LeadingOnes;
    assert Axes([3, 4, -1], 3) == [0, 1, 2];
    PermuteAccepts(l, [3, 4, -1]);
  }

  /** The list [0, 1, ...] with two places exchanged; a negative place counts from the end. */
  function Exchanged(n: nat, d0: int, d1: int): (ds: seq<int>)
    ensures |ds| == n
  {
    var i := if d0 < 0 then d0 + n else d0;
    var j := if d1 < 0 then d1 + n else d1;
    seq<int>(n, k requires 0 <= k < n => if k == i then j else if k == j then i else k)
  }

  function Transpose(l: Factors, d0: int, d1: int): (r: Result<Factors, Error>)
    requires Proper(l)
    ensures r.Ok? ==> Proper(r.value) && Rank(r.value) == Rank(l)
  {
    var n := Dims(l);
    if 0 <= d0 + n && d0 < n && 0 <= d1 + n && d1 < n then Permute(l, Exchanged(n, d0, d1)) else Err(IndexOutOfRange)
  }

  /** idx with the places a and b exchanged. */
  predicate IsExchange(x: seq<nat>, y: seq<nat>, a: nat, b: nat) {
    && |x| == |y| && a < |x| && b < |x|
    && x[a] == y[b] && x[b] == y[a]
    && forall k :: 0 <= k < |x| && k != a && k != b ==> x[k] == y[k]
  }

  lemma ExchangedIs(n: nat, d0: int, d1: int, a: nat, b: nat)
    requires n >= 2 && a < n && b < n && Names(d0, a, n) && Names(d1, b, n)
    ensures var dims := Exchanged(n, d0, d1);
            && dims[a] == b && dims[b] == a && (forall k :: 0 <= k < n && k != a && k != b ==> dims[k] == k)
            && Axes(dims, n) == dims && IsPermutation(dims, n)
  {
    var dims := Exchanged(n, d0, d1);
    ExchangesTwo(n, d0, d1, a, b);
    hide Exchanged;
    assert forall k :: 0 <= k < n ==> 0 <= dims[k] < n;
    assert forall k :: 0 <= k < n ==> Axes(dims, n)[k] == dims[k];
  }

  lemma ExchangesTwo(n: nat, d0: int, d1: int, a: nat, b: nat)
    requires n >= 2 && a < n && b < n && Names(d0, a, n) && Names(d1, b, n)
    ensures var dims := Exchanged(n, d0, d1);
            |dims| == n && dims[a] == b && dims[b] == a && forall k :: 0 <= k < n && k != a && k != b ==> dims[k] == k
  {
  }

  lemma ExchangeUnpermutes(dims: seq<int>, shape: Shape, idx: Index, a: nat, b: nat)
    requires IsPermutation(dims, |shape|) && a < |dims| && b < |dims| && dims[a] == b && dims[b] == a
    requires forall k :: 0 <= k < |dims| && k != a && k != b ==> dims[k] == k
    requires InShape(idx, PermutedShape(shape, dims))
    ensures IsExchange(Unpermute(dims, idx), idx, a, b)
  {
    UnpermuteInShape(dims, shape, idx);
    var src := Unpermute(dims, idx);
    assert src[dims[a]] == idx[a] && src[dims[b]] == idx[b];
    forall k | 0 <= k < |dims| && k != a && k != b
      ensures src[k] == idx[k]
    {
      assert src[dims[k]] == idx[k];
    }
  }

  /** Each axis is named from the front or from the end; a last axis that moves can only do so in a matrix. */
  predicate CanTranspose(l: Factors, a: nat, b: nat)
    requires Proper(l)
  {
    var last := Dims(l) - 1;
    if a == b || (a != last && b != last) then LeadingOnes(l.A) else Dims(l) == 2
  }

  lemma TransposeAccepts(l: Factors, d0: int, d1: int, a: nat, b: nat)
    requires Proper(l) && a < Dims(l) && b < Dims(l) && Names(d0, a, Dims(l)) && Names(d1, b, Dims(l))
    ensures Transpose(l, d0, d1).Ok? <==> CanTranspose(l, a, b)
  {
    hide Permute, Axes, Exchanged, LeadingOnes;
    var n := Dims(l);
    ExchangedIs(n, d0, d1, a, b);
    PermuteAccepts(l, Exchanged(n, d0, d1));
  }

  /**
   transpose is carried out exactly then, for any way of naming the axes; the product's axes a and b are exchanged and
   every entry is where the exchanged index says. Other numbers are refused.
   */
  lemma TransposeMeaning(l: Factors, d0: int, d1: int, a: nat, b: nat)
    requires Proper(l) && a < Dims(l) && b < Dims(l) && Names(d0, a, Dims(l)) && Names(d1, b, Dims(l))
    ensures Transpose(l, d0, d1).Ok? <==> CanTranspose(l, a, b)
    ensures Transpose(l, d0, d1).Ok? ==>
              var l' := Transpose(l, d0, d1).value;
              && Proper(l') && IsExchange(ShapeOf(l'), ShapeOf(l), a, b)
              && forall idx, src :: InShape(idx, ShapeOf(l')) && IsExchange(src, idx, a, b) ==>
                   InShape(src, ShapeOf(l)) && At(Dense(l'), idx) == At(Dense(l), src)
  {
    hide Dense, Permute, At, PermuteTensor, Axes, Exchanged, Unpermute, LeadingOnes;
    var n := Dims(l);
    var dims := Exchanged(n, d0, d1);
    TransposeAccepts(l, d0, d1, a, b);
    ExchangedIs(n, d0, d1, a, b);
    if Transpose(l, d0, d1).Ok? {
      PermuteMeaning(l, dims);
      var l' := Transpose(l, d0, d1).value;
      assert ShapeOf(l') == PermutedShape(ShapeOf(l), dims);
      forall idx, src | InShape(idx, ShapeOf(l')) && IsExchange(src, idx, a, b)
        ensures InShape(src, ShapeOf(l)) && At(Dense(l'), idx) == At(Dense(l), src)
      {
        PermuteTensorAt(Dense(l), dims, idx);
        ExchangeUnpermutes(dims, ShapeOf(l), idx, a, b);
        ExchangeUnique(src, Unpermute(dims, idx), idx, a, b);
      }
    }
  }

  lemma ExchangeUnique(x: seq<nat>, y: seq<nat>, z: seq<nat>, a: nat, b: nat)
    requires IsExchange(x, z, a, b) && IsExchange(y, z, a, b)
    ensures x == y
  {
  }

  lemma TransposeOutOfRange(l: Factors, d0: int, d1: int)
    requires Proper(l)
    requires d0 + Dims(l) < 0 || d0 >= Dims(l) || d1 + Dims(l) < 0 || d1 >= Dims(l)
    ensures Transpose(l, d0, d1) == Err(IndexOutOfRange)
  {
  }

  lemma TransposeRequests()
    ensures Exchanged(2, 0, 1) == [1, 0] && Exchanged(2, -1, -2) == [1, 0] && Axes([1, 0], 2) == [1, 0]
  {
    var d := FromTheEnd([1, 0], 2);
    assert d[0] == -1 && d[1] == -2;
    assert Axes([1, 0], 2)[0] == 1 && Axes([1, 0], 2)[1] == 0;
  }

  /** Transposing the two axes of a matrix needs no condition: (B A)^T. */
  lemma TransposeMatrix(l: Factors)
    requires Proper(l) && Dims(l) == 2
    ensures Transpose(l, 0, 1).Ok? && Transpose(l, -1, -2) == Transpose(l, 0, 1)
    ensures Dense(Transpose(l, 0, 1).value).shape == [ShapeOf(l)[1], ShapeOf(l)[0]]
    ensures forall i: nat, j: nat :: i < ShapeOf(l)[0] && j < ShapeOf(l)[1] ==>
              At(Dense(Transpose(l, 0, 1).value), [j, i]) == At(Dense(l), [i, j])
  {
    hide Dense, PermuteTensor, Permute, At;
    TransposeRequests();
    PermuteMeaning(l, [1, 0]);
    forall i: nat, j: nat | i < ShapeOf(l)[0] && j < ShapeOf(l)[1]
      ensures At(Dense(Transpose(l, 0, 1).value), [j, i]) == At(Dense(l), [i, j])
    {
      TransposedAt(Dense(l), i, j);
    }
  }
}
