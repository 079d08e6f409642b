/** Reshaping a factored weight, and the row permutation that two reshapes and a swap make up. */
module Reshaping {
  import opened Wrappers
  import opened Tensors
  import opened LowRank
  import opened Permuting

  // ----- Shapes as requested

  function ProdInt(dims: seq<int>): int {
    if dims == [] then 1 else ProdInt(dims[..|dims| - 1]) * dims[|dims| - 1]
  }

  function Replace(dims: seq<int>, size: int): (ds: seq<int>)
    ensures |ds| == |dims| && forall i :: 0 <= i < |dims| ==> ds[i] == if dims[i] == -1 then size else dims[i]
  {
    seq(|dims|, i requires 0 <= i < |dims| => if dims[i] == -1 then size else dims[i])
  }

  /** The -1 in a requested shape stands for whatever makes the element counts agree. */
  function Expand(dims: seq<int>, nElems: nat): Result<seq<int>, Error> {
    if -1 !in dims then Ok(dims)
    else
      var nNew := ProdInt(Replace(dims, 1));
      if nNew == 0 then Err(DivisionByZero)
      else if nElems % nNew != 0 then Err(AssertionFailed)
      else Ok(Replace(dims, nElems / nNew))
  }

  predicate NonNegative(dims: seq<int>) {
    forall i :: 0 <= i < |dims| ==> dims[i] >= 0
  }

  function AsShape(dims: seq<int>): (s: Shape)
    requires NonNegative(dims)
    ensures s == dims
  {
    seq(|dims|, i requires 0 <= i < |dims| => dims[i])
  }

  function Ones(n: nat): (s: Shape)
    ensures |s| == n && AllOnes(s)
  {
    seq(n, _ => 1)
  }

  /** torch.reshape: same elements, same order. */
  function ReshapeTensor(t: Tensor, dims: seq<int>): Result<Tensor, Error> {
    if NonNegative(dims) && Prod(AsShape(dims)) == |t.data| then Ok(Tensor(AsShape(dims), t.data)) else Err(TorchError)
  }

  function Reshape(l: Factors, shape: seq<int>): (r: Result<Factors, Error>)
    requires Proper(l)
    ensures r.Ok? ==> Proper(r.value) && Rank(r.value) == Rank(l)
  {
    var orig := ShapeOf(l);
    if |shape| < 2 then Err(NotImplemented)
    else
      match Expand(shape, Prod(orig))
      case Err(e) => Err(e)
      case Ok(dims) =>
        if dims[|dims| - 1] != orig[|orig| - 1] then Err(NotImplemented)
        else
          match ReshapeTensor(l.A, Ones(|dims| - 2) + [Rank(l), orig[|orig| - 1]])
          case Err(e) => Err(e)
          case Ok(A) =>
            match ReshapeTensor(l.B, dims[..|dims| - 1] + [Rank(l)])
            case Err(e) => Err(e)
            case Ok(B) => Ok(Factors(A, B))
  }

  // ----- The product as a flat matrix

  lemma ProdSnoc(shape: Shape, m: nat)
    ensures Prod(shape + [m]) == Prod(shape) * m
  {
    assert (shape + [m])[..|shape|] == shape;
  }

  lemma {:induction false} ProdOnes(shape: Shape)
    requires AllOnes(shape)
    ensures Prod(shape) == 1
  {
    if shape != [] {
      ProdOnes(shape[..|shape| - 1]);
    }
  }

  lemma {:induction false} OnesOfProd(shape: Shape)
    requires Prod(shape) == 1
    ensures AllOnes(shape)
  {
    if shape != [] {
      var p, m := Prod(shape[..|shape| - 1]), shape[|shape| - 1];
      FactorsOfOne(p, m);
      OnesOfProd(shape[..|shape| - 1]);
    }
  }

  lemma AtLeastOnce(p: nat, m: nat)
    requires p >= 1
    ensures p * m >= m
  {
    assert p * m == m + (p - 1) * m;
  }

  lemma FactorsOfOne(p: nat, m: nat)
    requires p * m == 1
    ensures p == 1 && m == 1
  {
    if p >= 1 {
      AtLeastOnce(p, m);
    }
  }

  lemma RavelSnoc(idx: Index, shape: Shape, i: nat, m: nat)
    requires InShape(idx, shape) && i < m
    ensures InShape(idx + [i], shape + [m])
    ensures Ravel(idx + [i], shape + [m]) == Ravel(idx, shape) * m + i
  {
    assert (idx + [i])[..|idx|] == idx && (shape + [m])[..|shape|] == shape;
  }

  lemma {:induction false} RavelZeros(idx: Index, shape: Shape)
    requires AllOnes(shape) && InShape(idx, shape)
    ensures Ravel(idx, shape) == 0
  {
    if shape != [] {
      var n := |shape| - 1;
      RavelZeros(idx[..n], shape[..n]);
      assert idx[n] == 0 && shape[n] == 1;
    }
  }

  /** The entry in row i, column j of rows of length m laid end to end. */
  function FlatAt(data: seq<real>, m: nat, i: nat, j: nat): real {
    if i * m + j < |data| then data[i * m + j] else 0.0
  }

  /** Row i of a flat B with rank columns against column j of a flat A with cols columns. */
  function FlatTerms(B: seq<real>, A: seq<real>, rank: nat, cols: nat, i: nat, j: nat): (ts: seq<real>)
    ensures |ts| == rank
  {
    seq(rank, r requires 0 <= r < rank => FlatAt(B, rank, i, r) * FlatAt(A, cols, r, j))
  }

  lemma FlatB(l: Factors, idx: Index, r: nat)
    requires Proper(l) && InShape(idx, ShapeOf(l)) && r < Rank(l)
    ensures var i := Ravel(idx[..Dims(l) - 1], l.B.shape[..Dims(l) - 1]);
            && InShape(IndexB(idx, r), l.B.shape)
            && At(l.B, IndexB(idx, r)) == FlatAt(l.B.data, Rank(l), i, r)
  {
    hide Prod;
    var n := Dims(l);
    RavelSnoc(idx[..n - 1], l.B.shape[..n - 1], r, Rank(l));
    assert l.B.shape == l.B.shape[..n - 1] + [Rank(l)];
  }

  lemma RavelUnderOnes(lead: Index, ones: Shape, r: nat, rank: nat, j: nat, cols: nat)
    requires AllOnes(ones) && InShape(lead, ones) && r < rank && j < cols
    ensures InShape(lead + [r, j], ones + [rank, cols])
    ensures Ravel(lead + [r, j], ones + [rank, cols]) == r * cols + j
  {
    RavelZeros(lead, ones);
    RavelSnoc(lead, ones, r, rank);
    RavelSnoc(lead + [r], ones + [rank], j, cols);
    assert lead + [r] + [j] == lead + [r, j] && ones + [rank] + [cols] == ones + [rank, cols];
  }

  lemma FlatA(l: Factors, idx: Index, r: nat)
    requires Proper(l) && LeadingOnes(l.A) && InShape(idx, ShapeOf(l)) && r < Rank(l)
    ensures InShape(IndexA(l.A.shape, idx, r), l.A.shape)
    ensures At(l.A, IndexA(l.A.shape, idx, r)) == FlatAt(l.A.data, l.A.shape[Dims(l) - 1], r, idx[Dims(l) - 1])
  {
    var n := Dims(l);
    var lead, ones := Broadcast(idx[..n - 2], l.A.shape), l.A.shape[..n - 2];
    IndicesInShape(l, idx, r);
    RavelUnderOnes(lead, ones, r, Rank(l), idx[n - 1], l.A.shape[n - 1]);
    assert l.A.shape == ones + [Rank(l), l.A.shape[n - 1]];
  }

  lemma TermIsFlat(l: Factors, idx: Index, r: nat)
    requires Proper(l) && LeadingOnes(l.A) && InShape(idx, ShapeOf(l)) && r < Rank(l)
    ensures var n := Dims(l);
            Term(l, idx, r) == FlatAt(l.B.data, Rank(l), Ravel(idx[..n - 1], l.B.shape[..n - 1]), r)
                               * FlatAt(l.A.data, l.A.shape[n - 1], r, idx[n - 1])
  {
    hide At, Ravel, Prod, FlatAt, Term;
    var n := Dims(l);
    FlatB(l, idx, r);
    FlatA(l, idx, r);
    TermIs(l, idx, r, FlatAt(l.B.data, Rank(l), Ravel(idx[..n - 1], l.B.shape[..n - 1]), r),
           FlatAt(l.A.data, l.A.shape[n - 1], r, idx[n - 1]));
  }

  /** With leading ones in A, the terms at idx are those of two flat matrices. */
  lemma TermsAreFlat(l: Factors, idx: Index)
    requires Proper(l) && LeadingOnes(l.A) && InShape(idx, ShapeOf(l))
    ensures var n := Dims(l);
            Terms(l, idx) == FlatTerms(l.B.data, l.A.data, Rank(l), l.A.shape[n - 1],
                                       Ravel(idx[..n - 1], l.B.shape[..n - 1]), idx[n - 1])
  {
    hide Term, FlatAt, At, Ravel, Prod;
    var n := Dims(l);
    var flat := FlatTerms(l.B.data, l.A.data, Rank(l), l.A.shape[n - 1],
                          Ravel(idx[..n - 1], l.B.shape[..n - 1]), idx[n - 1]);
    forall r | 0 <= r < Rank(l)
      ensures Terms(l, idx)[r] == flat[r]
    {
      TermIsFlat(l, idx, r);
    }
  }

  /** With leading ones in A, the product is the flat matrix product, whatever the shape says. */
  lemma DenseIsFlat(l: Factors, k: nat)
    requires Proper(l) && LeadingOnes(l.A) && k < Prod(ShapeOf(l))
    ensures var cols := l.A.shape[Dims(l) - 1];
            && cols > 0
            && Dense(l).data[k]
            == Sum(FlatTerms(l.B.data, l.A.data, Rank(l), cols, Row(k, cols), Col(k, cols)))
  {
    hide Dense, Sum, FlatTerms, Terms, Prod, Ravel, Unravel;
    var n := Dims(l);
    var idx := Unravel(k, ShapeOf(l));
    RavelUnravel(k, ShapeOf(l));
    DenseAt(l, idx);
    TermsAreFlat(l, idx);
    RavelSnoc(idx[..n - 1], l.B.shape[..n - 1], idx[n - 1], l.A.shape[n - 1]);
    assert idx == idx[..n - 1] + [idx[n - 1]];
    RowColOf(Ravel(idx[..n - 1], l.B.shape[..n - 1]), l.A.shape[n - 1], idx[n - 1]);
  }

  // ----- Reshaping

  lemma LeadingProduct(shape: Shape)
    requires |shape| >= 2
    ensures Prod(shape) == Prod(shape[..|shape| - 2]) * shape[|shape| - 2] * shape[|shape| - 1]
  {
    var lead := shape[..|shape| - 2];
    assert shape[..|shape| - 1] == lead + [shape[|shape| - 2]];
    ProdSnoc(lead, shape[|shape| - 2]);
  }

  lemma CancelPositive(p: nat, a: nat, b: nat)
    requires p * a * b == a * b && a > 0 && b > 0
    ensures p == 1
  {
    var m := a * b;
    assert m > 0;
    assert p * a * b == p * m;
    if p > 1 {
      Scaled(1, p, m);
    }
  }

  /** A can be made (1, ..., 1, rank, cols) exactly if its leading axes have size 1. */
  lemma LeadingOnesByCount(A: Tensor)
    requires Valid(A) && |A.shape| >= 2 && A.shape[|A.shape| - 2] > 0 && A.shape[|A.shape| - 1] > 0
    ensures LeadingOnes(A) <==> |A.data| == A.shape[|A.shape| - 2] * A.shape[|A.shape| - 1]
  {
    var n := |A.shape|;
    var p := Prod(A.shape[..n - 2]);
    LeadingProduct(A.shape);
    if LeadingOnes(A) {
      ProdOnes(A.shape[..n - 2]);
    }
    if |A.data| == A.shape[n - 2] * A.shape[n - 1] {
      CancelPositive(p, A.shape[n - 2], A.shape[n - 1]);
      OnesOfProd(A.shape[..n - 2]);
    }
  }

  lemma Scaled(p: nat, q: nat, m: nat)
    requires p < q && m > 0
    ensures p * m < q * m
  {
    assert q * m == p * m + (q - p) * m;
  }

  lemma CancelRight(p: nat, q: nat, m: nat)
    requires m > 0
    ensures p * m == q * m <==> p == q
  {
    if p < q {
      Scaled(p, q, m);
    } else if q < p {
      Scaled(q, p, m);
    }
  }

  /** The requests reshape carries out, for a weight with a rank and a row size. */
  predicate CanReshape(l: Factors, shape: seq<int>)
    requires Proper(l)
  {
    && |shape| >= 2
    && var e := Expand(shape, Prod(ShapeOf(l)));
       && e.Ok?
       && NonNegative(e.value)
       && e.value[|shape| - 1] == ShapeOf(l)[Dims(l) - 1]
       && Prod(AsShape(e.value)) == Prod(ShapeOf(l))
       && LeadingOnes(l.A)
  }

  predicate HasSize(l: Factors)
    requires Proper(l)
  {
    Rank(l) > 0 && l.A.shape[Dims(l) - 1] > 0
  }

  lemma AsShapeSnoc(dims: seq<int>, m: nat)
    requires NonNegative(dims)
    ensures NonNegative(dims + [m]) && AsShape(dims + [m]) == AsShape(dims) + [m]
  {
  }

  lemma FitsA(A: Tensor, n: nat)
    requires Valid(A) && |A.shape| >= 2 && A.shape[|A.shape| - 2] > 0 && A.shape[|A.shape| - 1] > 0
    ensures ReshapeTensor(A, Ones(n) + [A.shape[|A.shape| - 2], A.shape[|A.shape| - 1]]).Ok? <==> LeadingOnes(A)
  {
    var rank, cols := A.shape[|A.shape| - 2], A.shape[|A.shape| - 1];
    LeadingOnesByCount(A);
    ProdOnes(Ones(n));
    ProdSnoc(Ones(n), rank);
    ProdSnoc(Ones(n) + [rank], cols);
    assert Ones(n) + [rank] + [cols] == Ones(n) + [rank, cols];
    assert AsShape(Ones(n) + [rank, cols]) == Ones(n) + [rank, cols];
  }

  /** Rows laid out as rows', with rank columns or with cols columns: the counts agree together. */
  lemma FitsB(B: Tensor, rows: Shape, rank: nat, rows': seq<int>, cols: nat)
    requires Valid(B) && B.shape == rows + [rank] && rank > 0 && cols > 0
    ensures ReshapeTensor(B, rows' + [rank]).Ok?
       <==> NonNegative(rows' + [cols]) && Prod(AsShape(rows' + [cols])) == Prod(rows + [cols])
  {
    ProdSnoc(rows, rank);
    ProdSnoc(rows, cols);
    if NonNegative(rows') {
      AsShapeSnoc(rows', rank);
      AsShapeSnoc(rows', cols);
      ProdSnoc(AsShape(rows'), rank);
      ProdSnoc(AsShape(rows'), cols);
      CancelRight(Prod(AsShape(rows')), Prod(rows), rank);
      CancelRight(Prod(AsShape(rows')), Prod(rows), cols);
    } else {
      var i :| 0 <= i < |rows'| && rows'[i] < 0;
      assert (rows' + [rank])[i] < 0 && (rows' + [cols])[i] < 0;
    }
  }

  /** Both factors fit their new shapes exactly if the product does. */
  lemma CountsFit(l: Factors, dims: seq<int>)
    requires Proper(l) && HasSize(l) && |dims| >= 2 && dims[|dims| - 1] == ShapeOf(l)[Dims(l) - 1]
    ensures var k := |dims| - 1;
            var A := ReshapeTensor(l.A, Ones(k - 1) + [Rank(l), dims[k]]);
            var B := ReshapeTensor(l.B, dims[..k] + [Rank(l)]);
            A.Ok? && B.Ok? <==> NonNegative(dims) && Prod(AsShape(dims)) == Prod(ShapeOf(l)) && LeadingOnes(l.A)
  {
    var n, k := Dims(l), |dims| - 1;
    FitsA(l.A, k - 1);
    assert l.B.shape == l.B.shape[..n - 1] + [Rank(l)];
    FitsB(l.B, l.B.shape[..n - 1], Rank(l), dims[..k], dims[k]);
    assert dims == dims[..k] + [dims[k]];
  }

  /** Factors sharing their flat data, both with leading ones in A, have the same flat product. */
  lemma SameFlatProduct(l: Factors, l': Factors)
    requires Proper(l) && Proper(l') && LeadingOnes(l.A) && LeadingOnes(l'.A)
    requires l'.A.data == l.A.data && l'.B.data == l.B.data && Rank(l') == Rank(l)
    requires l'.A.shape[Dims(l') - 1] == l.A.shape[Dims(l) - 1]
    requires Prod(ShapeOf(l')) == Prod(ShapeOf(l))
    ensures Dense(l').data == Dense(l).data
  {
    forall k | 0 <= k < Prod(ShapeOf(l))
      ensures Dense(l').data[k] == Dense(l).data[k]
    {
      DenseIsFlat(l, k);
      DenseIsFlat(l', k);
    }
  }

  /** reshape is carried out exactly on such requests; it keeps both factors' elements and reshapes the product. */
  lemma ReshapeMeaning(l: Factors, shape: seq<int>)
    requires Proper(l) && HasSize(l)
    ensures Reshape(l, shape).Ok? <==> CanReshape(l, shape)
    ensures Reshape(l, shape).Ok? ==>
              var l' := Reshape(l, shape).value;
              && Proper(l') && HasSize(l') && LeadingOnes(l'.A)
              && l'.A.data == l.A.data && l'.B.data == l.B.data
              && ReshapeTensor(Dense(l), Expand(shape, Prod(ShapeOf(l))).value) == Ok(Dense(l'))
  {
    var e := Expand(shape, Prod(ShapeOf(l)));
    if |shape| >= 2 && e.Ok? {
      var dims := e.value;
      assert |dims| == |shape|;
      if dims[|dims| - 1] == ShapeOf(l)[Dims(l) - 1] {
        CountsFit(l, dims);
        if Reshape(l, shape).Ok? {
          ReshapeOk(l, shape, dims);
        }
      }
    }
  }

  lemma ReshapeOk(l: Factors, shape: seq<int>, dims: seq<int>)
    requires Proper(l) && HasSize(l) && Reshape(l, shape).Ok?
    requires Expand(shape, Prod(ShapeOf(l))) == Ok(dims)
    requires NonNegative(dims) && Prod(AsShape(dims)) == Prod(ShapeOf(l)) && LeadingOnes(l.A)
    ensures var l' := Reshape(l, shape).value;
            && Proper(l') && HasSize(l') && LeadingOnes(l'.A)
            && l'.A.data == l.A.data && l'.B.data == l.B.data
            && ReshapeTensor(Dense(l), dims) == Ok(Dense(l'))
  {
    var l' := Reshape(l, shape).value;
    var k := |dims| - 1;
    assert l'.A.shape == Ones(k - 1) + [Rank(l), dims[k]];
    assert l'.B.shape == AsShape(dims[..k] + [Rank(l)]);
    assert l'.A.shape[..k - 1] == Ones(k - 1);
    assert Proper(l');
    assert ShapeOf(l') == AsShape(dims);
    SameFlatProduct(l, l');
  }

  // ----- Weights without a rank or without a row size

  lemma EmptyA(A: Tensor, n: nat)
    requires Valid(A) && |A.shape| >= 2 && (A.shape[|A.shape| - 2] == 0 || A.shape[|A.shape| - 1] == 0)
    ensures |A.data| == 0 && ReshapeTensor(A, Ones(n) + [A.shape[|A.shape| - 2], A.shape[|A.shape| - 1]]).Ok?
  {
    var rank, cols := A.shape[|A.shape| - 2], A.shape[|A.shape| - 1];
    LeadingProduct(A.shape);
    ZeroProduct(Prod(A.shape[..|A.shape| - 2]), rank, cols);
    ProdOnes(Ones(n));
    ProdSnoc(Ones(n), rank);
    ProdSnoc(Ones(n) + [rank], cols);
    ZeroProduct(1, rank, cols);
    assert Ones(n) + [rank] + [cols] == Ones(n) + [rank, cols];
    assert AsShape(Ones(n) + [rank, cols]) == Ones(n) + [rank, cols];
  }

  lemma ZeroProduct(p: nat, a: nat, b: nat)
    requires a == 0 || b == 0
    ensures p * a * b == 0
  {
  }

  /** The shape B is asked to take fits exactly if its rows do, or if there is no rank. */
  lemma FitsRows(B: Tensor, rows: Shape, rank: nat, rows': seq<int>)
    requires Valid(B) && B.shape == rows + [rank]
    ensures ReshapeTensor(B, rows' + [rank]).Ok? <==> NonNegative(rows') && (rank == 0 || Prod(AsShape(rows')) == Prod(rows))
  {
    ProdSnoc(rows, rank);
    if NonNegative(rows') {
      AsShapeSnoc(rows', rank);
      ProdSnoc(AsShape(rows'), rank);
      if rank > 0 {
        CancelRight(Prod(AsShape(rows')), Prod(rows), rank);
      }
    } else {
      var i :| 0 <= i < |rows'| && rows'[i] < 0;
      assert (rows' + [rank])[i] < 0;
    }
  }

  predicate CanReshapeSizeless(l: Factors, shape: seq<int>)
    requires Proper(l)
  {
    && |shape| >= 2
    && var e := Expand(shape, Prod(ShapeOf(l)));
       && e.Ok?
       && NonNegative(e.value[..|shape| - 1])
       && e.value[|shape| - 1] == ShapeOf(l)[Dims(l) - 1]
       && (Rank(l) == 0 || Prod(AsShape(e.value[..|shape| - 1])) == Prod(l.B.shape[..Dims(l) - 1]))
  }

  lemma ReshapeParts(l: Factors, shape: seq<int>, dims: seq<int>)
    requires Proper(l) && |shape| >= 2 && Expand(shape, Prod(ShapeOf(l))) == Ok(dims)
    requires |dims| == |shape| && dims[|dims| - 1] == l.A.shape[Dims(l) - 1]
    ensures var k := |dims| - 1;
            var A := ReshapeTensor(l.A, Ones(k - 1) + [Rank(l), dims[k]]);
            var B := ReshapeTensor(l.B, dims[..k] + [Rank(l)]);
            && (Reshape(l, shape).Ok? <==> A.Ok? && B.Ok?)
            && (Reshape(l, shape).Ok? ==> Reshape(l, shape).value == Factors(A.value, B.value))
  {
    hide ReshapeTensor, Expand, Prod;
    assert ShapeOf(l)[|ShapeOf(l)| - 1] == l.A.shape[Dims(l) - 1];
  }

  lemma ReshapeSizelessAccepts(l: Factors, shape: seq<int>)
    requires Proper(l) && !HasSize(l)
    ensures Reshape(l, shape).Ok? <==> CanReshapeSizeless(l, shape)
    ensures Reshape(l, shape).Ok? ==>
              var dims := Expand(shape, Prod(ShapeOf(l))).value;
              NonNegative(dims) && ShapeOf(Reshape(l, shape).value) == AsShape(dims)
  {
    var e := Expand(shape, Prod(ShapeOf(l)));
    if |shape| >= 2 && e.Ok? {
      var dims, k := e.value, |shape| - 1;
      assert |dims| == |shape|;
      if dims[k] == ShapeOf(l)[Dims(l) - 1] {
        ReshapeParts(l, shape, dims);
        hide Reshape, ReshapeTensor, Expand, Prod, NonNegative, AsShape, Proper;
        EmptyA(l.A, k - 1);
        assert l.B.shape == l.B.shape[..Dims(l) - 1] + [Rank(l)];
        FitsRows(l.B, l.B.shape[..Dims(l) - 1], Rank(l), dims[..k]);
        assert dims == dims[..k] + [dims[k]];
        if Reshape(l, shape).Ok? {
          ShapesTaken(l, dims);
        }
      }
    }
  }

  lemma ShapesTaken(l: Factors, dims: seq<int>)
    requires Proper(l) && |dims| >= 2 && NonNegative(dims[..|dims| - 1]) && dims[|dims| - 1] == l.A.shape[Dims(l) - 1]
    requires ReshapeTensor(l.A, Ones(|dims| - 2) + [Rank(l), dims[|dims| - 1]]).Ok?
    requires ReshapeTensor(l.B, dims[..|dims| - 1] + [Rank(l)]).Ok?
    ensures NonNegative(dims)
    ensures var k := |dims| - 1;
            var A := ReshapeTensor(l.A, Ones(k - 1) + [Rank(l), dims[k]]).value;
            var B := ReshapeTensor(l.B, dims[..k] + [Rank(l)]).value;
            Proper(Factors(A, B)) && ShapeOf(Factors(A, B)) == AsShape(dims)
  {
    hide Prod;
    var k := |dims| - 1;
    assert forall i :: 0 <= i < k ==> dims[i] == dims[..k][i];
    var A := ReshapeTensor(l.A, Ones(k - 1) + [Rank(l), dims[k]]).value;
    var B := ReshapeTensor(l.B, dims[..k] + [Rank(l)]).value;
    assert A.shape == Ones(k - 1) + [Rank(l), dims[k]] && B.shape == dims[..k] + [Rank(l)];
  }

  /** Nothing is added up: every entry is zero. */
  lemma NoRankIsZero(l: Factors, k: nat)
    requires Proper(l) && Rank(l) == 0 && k < Prod(ShapeOf(l))
    ensures Dense(l).data[k] == 0.0
  {
    hide Prod, Ravel, Unravel, InShape, At;
    var idx := Unravel(k, ShapeOf(l));
    RavelUnravel(k, ShapeOf(l));
    DenseAt(l, idx);
    DataAt(Dense(l), idx);
    assert Terms(l, idx) == [];
  }

  lemma DataAt(t: Tensor, idx: Index)
    requires Valid(t) && InShape(idx, t.shape)
    ensures At(t, idx) == t.data[Ravel(idx, t.shape)]
  {
  }

  /**
   Without a rank or a row size the factors fit more shapes. The result is the product reshaped exactly if the counts
   agree; they can only differ when there is no rank, and all entries are zero.
   */
  lemma ReshapeSizeless(l: Factors, shape: seq<int>)
    requires Proper(l) && !HasSize(l)
    ensures Reshape(l, shape).Ok? <==> CanReshapeSizeless(l, shape)
    ensures Reshape(l, shape).Ok? ==>
              var l', dims := Reshape(l, shape).value, Expand(shape, Prod(ShapeOf(l))).value;
              && NonNegative(dims) && ShapeOf(l') == AsShape(dims)
              && (Rank(l) > 0 ==> Prod(AsShape(dims)) == Prod(ShapeOf(l)))
              && (ReshapeTensor(Dense(l), dims) == Ok(Dense(l')) <==> Prod(AsShape(dims)) == Prod(ShapeOf(l)))
  {
    ReshapeSizelessAccepts(l, shape);
    if Reshape(l, shape).Ok? {
      var l', dims := Reshape(l, shape).value, Expand(shape, Prod(ShapeOf(l))).value;
      hide Reshape, Expand, CanReshapeSizeless;
      if Rank(l) > 0 {
        NoColumns(l);
        NoColumns(l');
      }
      if Prod(AsShape(dims)) == Prod(ShapeOf(l)) {
        SameSizeless(l, l');
      }
    }
  }

  lemma NoColumns(l: Factors)
    requires Proper(l) && l.A.shape[Dims(l) - 1] == 0
    ensures Prod(ShapeOf(l)) == 0
  {
    ProdSnoc(l.B.shape[..Dims(l) - 1], 0);
  }

  lemma SameSizeless(l: Factors, l': Factors)
    requires Proper(l) && Proper(l') && Rank(l') == Rank(l) && !HasSize(l) && Prod(ShapeOf(l')) == Prod(ShapeOf(l))
    ensures Dense(l').data == Dense(l).data
  {
    hide Prod, Dense;
    if Rank(l) == 0 {
      forall k | 0 <= k < Prod(ShapeOf(l))
        ensures Dense(l').data[k] == Dense(l).data[k]
      {
        NoRankIsZero(l, k);
        NoRankIsZero(l', k);
      }
    } else {
      NoColumns(l);
    }
  }

  // ----- The -1 in a requested shape

  /** Exactly one place of dims, p, holds -1. */
  predicate OneOpen(dims: seq<int>, p: nat) {
    p < |dims| && forall i :: 0 <= i < |dims| ==> (dims[i] == -1 <==> i == p)
  }

  lemma {:induction false} ReplaceNothing(dims: seq<int>, size: int)
    requires -1 !in dims
    ensures Replace(dims, size) == dims
  {
  }

  lemma {:induction false} ProdReplace(dims: seq<int>, p: nat, size: int)
    requires OneOpen(dims, p)
    ensures ProdInt(Replace(dims, size)) == ProdInt(Replace(dims, 1)) * size
  {
    var n := |dims| - 1;
    var rest := dims[..n];
    assert Replace(dims, size)[..n] == Replace(rest, size) && Replace(dims, 1)[..n] == Replace(rest, 1);
    if p == n {
      ReplaceNothing(rest, size);
      ReplaceNothing(rest, 1);
    } else {
      assert OneOpen(rest, p);
      ProdReplace(rest, p, size);
      Exchange(ProdInt(Replace(rest, 1)), size, dims[n]);
    }
  }

  lemma Exchange(a: int, b: int, c: int)
    ensures (a * b) * c == (a * c) * b
  {
  }

  /** A single -1 is filled in exactly if some size makes the counts agree, and then with that size. */
  lemma ExpandFits(dims: seq<int>, p: nat, nElems: nat)
    requires OneOpen(dims, p) && ProdInt(Replace(dims, 1)) != 0
    ensures Expand(dims, nElems).Ok? <==> exists size :: ProdInt(Replace(dims, size)) == nElems
    ensures Expand(dims, nElems).Ok? ==> ProdInt(Expand(dims, nElems).value) == nElems
  {
    var m := ProdInt(Replace(dims, 1));
    assert dims[p] == -1;
    if Expand(dims, nElems).Ok? {
      ProdReplace(dims, p, nElems / m);
    }
    if size :| ProdInt(Replace(dims, size)) == nElems {
      ProdReplace(dims, p, size);
      MultipleDivides(m, size, nElems);
    }
  }

  /**
   A request without -1 stays as it is. Otherwise every -1 becomes the size by which the product of the others has to be
   multiplied to give the number of elements, and the request is refused if there is none.
   */
  lemma ExpandExactly(dims: seq<int>, nElems: nat)
    ensures -1 !in dims ==> Expand(dims, nElems) == Ok(dims)
    ensures -1 in dims ==>
              var m, e := ProdInt(Replace(dims, 1)), Expand(dims, nElems);
              && (e.Ok? <==> m != 0 && exists size :: size * m == nElems)
              && (e.Ok? ==> |e.value| == |dims| && forall i :: 0 <= i < |dims| ==>
                   if dims[i] == -1 then e.value[i] * m == nElems else e.value[i] == dims[i])
  {
    var m := ProdInt(Replace(dims, 1));
    if -1 in dims && m != 0 {
      if size :| size * m == nElems {
        MultipleDivides(m, size, nElems);
      }
      if nElems % m == 0 {
        assert (nElems / m) * m == nElems;
      }
    }
  }

  lemma {:induction false} ProdIntIsProd(dims: seq<int>)
    requires NonNegative(dims)
    ensures ProdInt(dims) == Prod(AsShape(dims))
    decreases |dims|
  {
    if dims != [] {
      var n := |dims| - 1;
      ProdIntIsProd(dims[..n]);
      assert AsShape(dims)[..n] == AsShape(dims[..n]);
    }
  }

  lemma MultipleDivides(m: int, q: int, n: int)
    requires m != 0 && m * q == n
    ensures n % m == 0
  {
    var r, d := n % m, q - n / m;
    assert r == m * d;
    var abs := if m < 0 then -m else m;
    if d != 0 {
      SizeOfMultiple(m, d, abs);
    }
  }

  lemma SizeOfMultiple(m: int, d: int, abs: int)
    requires d != 0 && abs == (if m < 0 then -m else m)
    ensures m * d >= abs || m * d <= -abs
  {
    if d >= 1 && m >= 0 {
      assert m * d == m + m * (d - 1);
    } else if d >= 1 {
      assert (-m) * d == -m + (-m) * (d - 1);
    } else if m >= 0 {
      assert m * (-d) == m + m * (-d - 1);
    } else {
      assert (-m) * (-d) == -m + (-m) * (-d - 1);
    }
  }

  // ----- The head-wise row permutation made of reshape, swapaxes and reshape

  function UndoPermute(l: Factors, nHead: nat): Result<Factors, Error>
    requires Proper(l) && nHead > 0
  {
    var shape := ShapeOf(l);
    match Reshape(l, [nHead, 2, shape[0] / nHead / 2] + shape[1..])
    case Err(e) => Err(e)
    case Ok(l1) =>
      match Transpose(l1, 1, 2)
      case Err(e) => Err(e)
      case Ok(l2) => Reshape(l2, shape)
  }

  lemma Prod2(a: nat, b: nat)
    ensures Prod([a, b]) == a * b
  {
    ProdSnoc([], a);
    ProdSnoc([a], b);
    assert [] + [a] == [a] && [a] + [b] == [a, b];
  }

  lemma Prod4(a: nat, b: nat, c: nat, d: nat)
    ensures Prod([a, b, c, d]) == a * b * c * d
  {
    Prod2(a, b);
    ProdSnoc([a, b], c);
    ProdSnoc([a, b, c], d);
    assert [a, b] + [c] == [a, b, c] && [a, b, c] + [d] == [a, b, c, d];
  }

  lemma Ravel2(i: nat, j: nat, s0: nat, s1: nat)
    requires i < s0 && j < s1
    ensures InShape([i, j], [s0, s1]) && Ravel([i, j], [s0, s1]) == i * s1 + j
  {
    hide Ravel;
    RavelSnoc([], [], i, s0);
    RavelSnoc([i], [s0], j, s1);
    assert [] + [i] == [i] && [i] + [j] == [i, j] && [] + [s0] == [s0] && [s0] + [s1] == [s0, s1];
  }

  lemma Ravel4(i: nat, j: nat, k: nat, m: nat, s0: nat, s1: nat, s2: nat, s3: nat)
    requires i < s0 && j < s1 && k < s2 && m < s3
    ensures InShape([i, j, k, m], [s0, s1, s2, s3])
    ensures Ravel([i, j, k, m], [s0, s1, s2, s3]) == ((i * s1 + j) * s2 + k) * s3 + m
  {
    Ravel2(i, j, s0, s1);
    RavelSnoc([i, j], [s0, s1], k, s2);
    RavelSnoc([i, j, k], [s0, s1, s2], m, s3);
    assert [i, j] + [k] == [i, j, k] && [i, j, k] + [m] == [i, j, k, m];
    assert [s0, s1] + [s2] == [s0, s1, s2] && [s0, s1, s2] + [s3] == [s0, s1, s2, s3];
  }

  const SWAP: seq<int> := [0, 2, 1, 3]

  lemma SwapMiddle(t: Tensor, H: nat, D: nat, c: nat, h: nat, p: nat, q: nat, j: nat)
    requires Valid(t) && t.shape == [H, 2, D, c] && h < H && p < 2 && q < D && j < c
    ensures IsPermutation(SWAP, 4) && PermuteTensor(t, SWAP).shape == [H, D, 2, c]
    ensures InShape([h, q, p, j], [H, D, 2, c]) && InShape([h, p, q, j], t.shape)
    ensures At(PermuteTensor(t, SWAP), [h, q, p, j]) == At(t, [h, p, q, j])
  {
    hide Ravel, Prod, At, PermuteTensor;
    assert PermutedShape(t.shape, SWAP) == [H, D, 2, c];
    PermuteTensorAt(t, SWAP, [h, q, p, j]);
    UnpermuteSwap(t.shape, h, p, q, j);
  }

  lemma UnpermuteSwap(shape: Shape, h: nat, p: nat, q: nat, j: nat)
    requires |shape| == 4 && InShape([h, p, q, j], shape)
    ensures Unpermute(SWAP, [h, q, p, j]) == [h, p, q, j]
  {
    hide Unpermute;
    UnpermuteInShape(SWAP, shape, [h, q, p, j]);
    var u := Unpermute(SWAP, [h, q, p, j]);
    assert u[SWAP[0]] == h && u[SWAP[1]] == q && u[SWAP[2]] == p && u[SWAP[3]] == j;
  }

  lemma RowsFit(rows: nat, H: nat, D: nat, h: nat, p: nat, q: nat)
    requires rows == H * 2 * D && h < H && p < 2 && q < D
    ensures (h * D + q) * 2 + p < rows && (h * 2 + p) * D + q < rows
  {
    RowBound(h, D, q, H);
    RowBound(h, 2, p, H);
    RowBound(h * 2 + p, D, q, H * 2);
    assert H * 2 * D == (H * D) * 2;
  }

  /** Row (head h, half p, place q) of 2 * D rows a head, and the row it moves to. */
  function RowBefore(D: nat, h: nat, p: nat, q: nat): nat {
    (h * 2 + p) * D + q
  }

  function RowAfter(D: nat, h: nat, p: nat, q: nat): nat {
    (h * D + q) * 2 + p
  }

  /** Column j of row `from` of t stands in row `to` of t'. */
  predicate Moved(t: Tensor, t': Tensor, from: nat, to: nat, j: nat) {
    && Valid(t) && Valid(t') && t'.shape == t.shape
    && InShape([from, j], t.shape) && InShape([to, j], t.shape)
    && At(t', [to, j]) == At(t, [from, j])
  }

  /** On a dense matrix: rows split as (head, half, place), the last two exchanged, laid flat again. */
  lemma SwappedRow(t: Tensor, t1: Tensor, t3: Tensor, H: nat, D: nat, c: nat, h: nat, p: nat, q: nat, j: nat)
    requires Valid(t) && Valid(t1) && Valid(t3)
    requires t.shape == t3.shape == [H * 2 * D, c]
    requires t1.shape == [H, 2, D, c] && t1.data == t.data
    requires IsPermutation(SWAP, 4) && t3.data == PermuteTensor(t1, SWAP).data
    requires h < H && p < 2 && q < D && j < c
    ensures Moved(t, t3, RowBefore(D, h, p, q), RowAfter(D, h, p, q), j)
  {
    hide Prod, PermuteTensor;
    SwapMiddle(t1, H, D, c, h, p, q, j);
    Ravel4(h, q, p, j, H, D, 2, c);
    Ravel4(h, p, q, j, H, 2, D, c);
    RowsFit(H * 2 * D, H, D, h, p, q);
    Ravel2(RowAfter(D, h, p, q), j, H * 2 * D, c);
    Ravel2(RowBefore(D, h, p, q), j, H * 2 * D, c);
  }

  lemma HalfHeads(rows: nat, H: nat, D: nat)
    requires H > 0 && rows == H * 2 * D
    ensures rows / H / 2 == D
  {
    var m := 2 * D;
    assert rows == H * m;
    assert rows / H == m by {
      QuotientOf(H, m);
    }
  }

  lemma QuotientOf(a: nat, b: nat)
    requires a > 0
    ensures (a * b) / a == b
  {
    var q := (a * b) / a;
    var r := (a * b) % a;
    assert a * (b - q) == r;
    if b > q {
      AtLeastOnce(b - q, a);
    }
  }

  lemma SwapRequest()
    ensures Axes(Exchanged(4, 1, 2), 4) == SWAP
  {
    var e := Exchanged(4, 1, 2);
    assert e[0] == 0 && e[1] == 2 && e[2] == 1 && e[3] == 3;
    var d := FromTheEnd(e, 4);
    assert d[0] == -4 && d[1] == -2 && d[2] == -3 && d[3] == -1;
    var x := Axes(e, 4);
    assert x[0] == 0 && x[1] == 2 && x[2] == 1 && x[3] == 3;
  }

  lemma SplitRows(l: Factors, rows: nat, H: nat, D: nat)
    requires Proper(l) && HasSize(l) && Dims(l) == 2 && ShapeOf(l)[0] == rows == H * 2 * D
    ensures var r := Reshape(l, [H, 2, D, ShapeOf(l)[1]]);
            && r.Ok? && HasSize(r.value) && LeadingOnes(r.value.A) && r.value.A.data == l.A.data
            && Dense(r.value) == Tensor([H, 2, D, ShapeOf(l)[1]], Dense(l).data)
  {
    var c := ShapeOf(l)[1];
    var request: seq<int> := [H, 2, D, c];
    assert ShapeOf(l) == [rows, c];
    Prod2(rows, c);
    Prod4(H, 2, D, c);
    assert AsShape(request) == [H, 2, D, c];
    assert -1 !in request;
    assert CanReshape(l, request);
    ReshapeMeaning(l, request);
  }

  lemma ExchangeHalves(l: Factors, H: nat, D: nat, c: nat)
    requires Proper(l) && HasSize(l) && LeadingOnes(l.A) && ShapeOf(l) == [H, 2, D, c]
    ensures var r := Transpose(l, 1, 2);
            && IsPermutation(SWAP, 4) && r.Ok? && HasSize(r.value) && r.value.A == l.A
            && Dense(r.value) == PermuteTensor(Dense(l), SWAP)
            && ShapeOf(r.value) == [H, D, 2, c]
  {
    hide Dense, PermuteTensor, Prod, At;
    SwapRequest();
    PermuteMeaning(l, Exchanged(4, 1, 2));
    assert PermutedShape(ShapeOf(l), SWAP) == [H, D, 2, c];
  }

  lemma JoinRows(l: Factors, rows: nat, H: nat, D: nat, c: nat)
    requires Proper(l) && HasSize(l) && LeadingOnes(l.A) && ShapeOf(l) == [H, D, 2, c] && rows == H * 2 * D
    ensures var r := Reshape(l, [rows, c]);
            && r.Ok? && r.value.A == Tensor([Rank(l), c], l.A.data)
            && Dense(r.value) == Tensor([rows, c], Dense(l).data)
  {
    var request: seq<int> := [rows, c];
    Prod2(rows, c);
    Prod4(H, D, 2, c);
    assert H * D * 2 == H * 2 * D;
    assert AsShape(request) == [rows, c];
    assert -1 !in request;
    assert CanReshape(l, request);
    ReshapeMeaning(l, request);
    assert Ones(0) + [Rank(l), c] == [Rank(l), c];
    assert AsShape([Rank(l), c]) == [Rank(l), c];
  }

  /**
   A matrix whose rows divide into heads of two halves of D rows: the row permutation is carried out,
   A is not touched at all, and of the product row (h, p, q) becomes row (h, q, p).
   */
  lemma UndoPermuteMeaning(l: Factors, H: nat, D: nat, h: nat, p: nat, q: nat, j: nat)
    requires Proper(l) && HasSize(l) && Dims(l) == 2 && ShapeOf(l)[0] == H * 2 * D
    requires h < H && p < 2 && q < D && j < ShapeOf(l)[1]
    ensures UndoPermute(l, H).Ok?
    ensures var l' := UndoPermute(l, H).value;
            && Proper(l') && l'.A == l.A
            && Moved(Dense(l), Dense(l'), RowBefore(D, h, p, q), RowAfter(D, h, p, q), j)
  {
    var rows, c := H * 2 * D, ShapeOf(l)[1];
    assert ShapeOf(l) == [rows, c] && l.A.shape == [Rank(l), c];
    HalfHeads(rows, H, D);
    assert [H, 2, ShapeOf(l)[0] / H / 2] + ShapeOf(l)[1..] == [H, 2, D, c];
    SplitRows(l, rows, H, D);
    var l1 := Reshape(l, [H, 2, D, c]).value;
    assert ShapeOf(l1) == Dense(l1).shape;
    ExchangeHalves(l1, H, D, c);
    var l2 := Transpose(l1, 1, 2).value;
    JoinRows(l2, rows, H, D, c);
    SwappedRow(Dense(l), Dense(l1), Dense(Reshape(l2, [rows, c]).value), H, D, c, h, p, q, j);
  }
}
