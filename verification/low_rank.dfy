/**
 Low-rank weights kept as a pair of factors. LoraTorchTensor
 (self.llama/convert_lora_to_gguf.py) works on the factors only; each operation
 must denote the same operation on the product B * A.
 */
module LowRank {
  import opened Wrappers
  import opened Tensors

  datatype Factors = Factors(A: Tensor, B: Tensor)

  datatype Error = NotImplemented | AssertionFailed | IndexOutOfRange | DivisionByZero | TorchError

  // ----- What a pair of factors stands for

  /** What the constructor asserts. */
  predicate Constructs(A: Tensor, B: Tensor) {
    && |A.shape| == |B.shape| >= 2
    && A.shape[|A.shape| - 2] == B.shape[|B.shape| - 1]
  }

  /** The leading axes of A broadcast over those of B. */
  predicate Broadcasts(A: Shape, B: Shape) {
    |A| == |B| && forall i :: 0 <= i < |A| - 2 ==> A[i] == 1 || A[i] == B[i]
  }

  predicate Proper(l: Factors) {
    && Valid(l.A) && Valid(l.B)
    && Constructs(l.A, l.B)
    && Broadcasts(l.A.shape, l.B.shape)
  }

  function Dims(l: Factors): nat {
    |l.A.shape|
  }

  function Rank(l: Factors): nat
    requires Proper(l)
  {
    l.B.shape[Dims(l) - 1]
  }

  function ShapeOf(l: Factors): Shape
    requires Proper(l)
  {
    l.B.shape[..Dims(l) - 1] + [l.A.shape[Dims(l) - 1]]
  }

  /** An index along leading axes, with 0 wherever the axis has size 1. */
  function Broadcast(idx: Index, shape: Shape): (b: Index)
    requires |idx| <= |shape|
    ensures |b| == |idx|
  {
    seq(|idx|, i requires 0 <= i < |idx| => if shape[i] == 1 then 0 else idx[i])
  }

  /** The entry of B that meets term r of the inner product at idx: the last place holds r. */
  function IndexB(idx: Index, r: nat): Index
    requires idx != []
  {
    idx[..|idx| - 1] + [r]
  }

  /** The entry of A: leading places broadcast, then r, then the last place of idx. */
  function IndexA(shape: Shape, idx: Index, r: nat): Index
    requires 2 <= |idx| <= |shape|
  {
    Broadcast(idx[..|idx| - 2], shape) + [r, idx[|idx| - 1]]
  }

  lemma IndicesInShape(l: Factors, idx: Index, r: nat)
    requires Proper(l) && InShape(idx, ShapeOf(l)) && r < Rank(l)
    ensures InShape(IndexB(idx, r), l.B.shape)
    ensures InShape(IndexA(l.A.shape, idx, r), l.A.shape)
  {
  }

  function Term(l: Factors, idx: Index, r: nat): real
    requires Proper(l) && InShape(idx, ShapeOf(l)) && r < Rank(l)
  {
    IndicesInShape(l, idx, r);
    At(l.B, IndexB(idx, r)) * At(l.A, IndexA(l.A.shape, idx, r))
  }

  lemma TermsMeet(l: Factors, idx: Index, l': Factors, idx': Index, r: nat)
    requires Proper(l) && InShape(idx, ShapeOf(l)) && r < Rank(l)
    requires Proper(l') && InShape(idx', ShapeOf(l')) && r < Rank(l')
    requires InShape(IndexB(idx, r), l.B.shape) && InShape(IndexB(idx', r), l'.B.shape)
    requires InShape(IndexA(l.A.shape, idx, r), l.A.shape) && InShape(IndexA(l'.A.shape, idx', r), l'.A.shape)
    requires At(l.B, IndexB(idx, r)) == At(l'.B, IndexB(idx', r))
    requires At(l.A, IndexA(l.A.shape, idx, r)) == At(l'.A, IndexA(l'.A.shape, idx', r))
    ensures Term(l, idx, r) == Term(l', idx', r)
  {
    hide Ravel, Prod, At;
  }

  lemma TermIs(l: Factors, idx: Index, r: nat, b: real, a: real)
    requires Proper(l) && InShape(idx, ShapeOf(l)) && r < Rank(l)
    requires InShape(IndexB(idx, r), l.B.shape) && At(l.B, IndexB(idx, r)) == b
    requires InShape(IndexA(l.A.shape, idx, r), l.A.shape) && At(l.A, IndexA(l.A.shape, idx, r)) == a
    ensures Term(l, idx, r) == b * a
  {
    hide Ravel, Prod, At;
  }

  function Terms(l: Factors, idx: Index): (ts: seq<real>)
    requires Proper(l) && InShape(idx, ShapeOf(l))
    ensures |ts| == Rank(l)
  {
    seq(Rank(l), r requires 0 <= r < Rank(l) => Term(l, idx, r))
  }

  function Sum(ts: seq<real>): real {
    if ts == [] then 0.0 else Sum(ts[..|ts| - 1]) + ts[|ts| - 1]
  }

  /** The inner product of row idx[..n - 1] of B and column idx[n - 1] of A. */
  function Entry(l: Factors, idx: Index): real
    requires Proper(l) && InShape(idx, ShapeOf(l))
  {
    Sum(Terms(l, idx))
  }

  /** The product B * A, batched over the leading axes. */
  function Dense(l: Factors): (t: Tensor)
    requires Proper(l)
    ensures Valid(t) && t.shape == ShapeOf(l)
  {
    Build(ShapeOf(l), idx => if InShape(idx, ShapeOf(l)) then Entry(l, idx) else 0.0)
  }

  lemma DenseAt(l: Factors, idx: Index)
    requires Proper(l) && InShape(idx, ShapeOf(l))
    ensures At(Dense(l), idx) == Entry(l, idx)
  {
    BuildAt(ShapeOf(l), idx => if InShape(idx, ShapeOf(l)) then Entry(l, idx) else 0.0, idx);
  }

  // ----- Operations that only move entries

  /** The tensor whose entry at idx is t's entry at g(idx). */
  function Remap(t: Tensor, shape: Shape, g: Index -> Index): (t': Tensor)
    requires Valid(t)
    ensures Valid(t') && t'.shape == shape
  {
    Build(shape, idx => if InShape(g(idx), t.shape) then At(t, g(idx)) else 0.0)
  }

  lemma RemapAt(t: Tensor, shape: Shape, g: Index -> Index, idx: Index)
    requires Valid(t) && InShape(idx, shape) && InShape(g(idx), t.shape)
    ensures At(Remap(t, shape, g), idx) == At(t, g(idx))
  {
    BuildAt(shape, idx => if InShape(g(idx), t.shape) then At(t, g(idx)) else 0.0, idx);
  }

  /** At idx, the inner product of l' has the terms of l at g(idx). */
  predicate Follows(l: Factors, l': Factors, g: Index -> Index, idx: Index)
    requires Proper(l) && Proper(l') && InShape(idx, ShapeOf(l'))
  {
    InShape(g(idx), ShapeOf(l)) && Terms(l', idx) == Terms(l, g(idx))
  }

  /** Factors that follow l along g stand for the product of l with its entries moved along g. */
  lemma FactorsFollow(l: Factors, l': Factors, g: Index -> Index)
    requires Proper(l) && Proper(l')
    requires forall idx :: InShape(idx, ShapeOf(l')) ==> Follows(l, l', g, idx)
    ensures Dense(l') == Remap(Dense(l), ShapeOf(l'), g)
  {
    forall idx | InShape(idx, ShapeOf(l'))
      ensures At(Dense(l'), idx) == At(Remap(Dense(l), ShapeOf(l'), g), idx)
    {
      assert Follows(l, l', g, idx);
      DenseAt(l', idx);
      DenseAt(l, g(idx));
      RemapAt(Dense(l), ShapeOf(l'), g, idx);
    }
    SameEntries(Dense(l'), Remap(Dense(l), ShapeOf(l'), g));
  }

  // ----- The inner product, counted out

  lemma {:induction false} SumAdds(a: seq<real>, b: seq<real>)
    ensures Sum(a + b) == Sum(a) + Sum(b)
    ensures forall x: real :: Sum([x]) == x
    decreases |b|
  {
    forall x: real
      ensures Sum([x]) == x
    {
      assert [x][..0] == [];
    }
    if b == [] {
      assert a + b == a;
    } else {
      SumAdds(a, b[..|b| - 1]);
      assert (a + b)[..|a + b| - 1] == a + b[..|b| - 1];
    }
  }

  /**
   Places b of B and a of A that meet in term r of the entry at idx: r is b's last place and a's last but one, the row is
   b's and the column a's, and leading places are those of idx, but for axes where A is broadcast.
   */
  predicate Meets(l: Factors, idx: Index, r: nat, b: Index, a: Index)
    requires Proper(l) && |idx| == Dims(l)
  {
    var n := Dims(l);
    && InShape(b, l.B.shape) && b[n - 1] == r && (forall i :: 0 <= i < n - 1 ==> b[i] == idx[i])
    && InShape(a, l.A.shape) && a[n - 2] == r && a[n - 1] == idx[n - 1]
    && (forall i :: 0 <= i < n - 2 ==> a[i] == idx[i] || l.A.shape[i] == 1)
  }

  lemma MeetsOnce(l: Factors, idx: Index, r: nat, b: Index, a: Index)
    requires Proper(l) && InShape(idx, ShapeOf(l)) && r < Rank(l) && Meets(l, idx, r, b, a)
    ensures b == IndexB(idx, r) && a == IndexA(l.A.shape, idx, r)
  {
    var n, x := Dims(l), IndexA(l.A.shape, idx, r);
    IndicesInShape(l, idx, r);
    forall i | 0 <= i < n
      ensures a[i] == x[i]
    {
      if i < n - 2 {
        assert a[i] < l.A.shape[i];
      }
    }
  }

  predicate Multiply(l: Factors, idx: Index, r: nat, b: Index, a: Index, x: real)
    requires Proper(l) && |idx| == Dims(l)
  {
    Meets(l, idx, r, b, a) && x == At(l.B, b) * At(l.A, a)
  }

  lemma MultiplyIsTerm(l: Factors, idx: Index, r: nat, b: Index, a: Index, x: real)
    requires Proper(l) && InShape(idx, ShapeOf(l)) && r < Rank(l) && Multiply(l, idx, r, b, a, x)
    ensures Term(l, idx, r) == x
  {
    hide Prod, Ravel, At, Term;
    MeetsOnce(l, idx, r, b, a);
    TermIs(l, idx, r, At(l.B, b), At(l.A, a));
  }

  /** The entry of the product at idx is the sum of the products of the entries that meet, one for each r. */
  lemma DenseExactly(l: Factors, idx: Index, bs: seq<Index>, as': seq<Index>, terms: seq<real>)
    requires Proper(l) && InShape(idx, ShapeOf(l)) && |bs| == |as'| == |terms| == Rank(l)
    requires forall r :: 0 <= r < Rank(l) ==> Multiply(l, idx, r, bs[r], as'[r], terms[r])
    ensures At(Dense(l), idx) == Sum(terms)
  {
    hide Prod, Ravel, At, Term, Multiply;
    DenseAt(l, idx);
    forall r | 0 <= r < Rank(l)
      ensures Terms(l, idx)[r] == terms[r]
    {
      MultiplyIsTerm(l, idx, r, bs[r], as'[r], terms[r]);
    }
    assert Terms(l, idx) == terms;
  }
}
