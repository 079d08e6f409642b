/** Dense row-major tensors: indices, flat positions, and tensors given entry by entry. */
module Tensors {

  type Shape = seq<nat>
  type Index = seq<nat>

  datatype Tensor = Tensor(shape: Shape, data: seq<real>)

  function Prod(shape: Shape): nat {
    if shape == [] then 1 else Prod(shape[..|shape| - 1]) * shape[|shape| - 1]
  }

  predicate Valid(t: Tensor) {
    |t.data| == Prod(t.shape)
  }

  predicate InShape(idx: Index, shape: Shape) {
    |idx| == |shape| && forall i :: 0 <= i < |idx| ==> idx[i] < shape[i]
  }

  // ----- Rows of length m laid end to end: which row, and where in it

  function Row(k: nat, m: nat): nat
    requires m > 0
  {
    if k < m then 0 else 1 + Row(k - m, m)
  }

  function Col(k: nat, m: nat): (r: nat)
    requires m > 0
    ensures r < m
  {
    if k < m then k else Col(k - m, m)
  }

  lemma RowBound(q: nat, m: nat, r: nat, hi: nat)
    requires r < m && q < hi
    ensures q * m + r < hi * m
  {
    assert (q + 1) * m <= hi * m;
  }

  lemma {:induction false} RowColOf(q: nat, m: nat, r: nat)
    requires r < m
    ensures Row(q * m + r, m) == q && Col(q * m + r, m) == r
  {
    if q > 0 {
      assert q * m == (q - 1) * m + m;
      RowColOf(q - 1, m, r);
    }
  }

  lemma {:induction false} RowColBack(k: nat, m: nat, hi: nat)
    requires k < hi * m
    ensures m > 0 && Row(k, m) < hi && Row(k, m) * m + Col(k, m) == k
  {
    if m > 0 && k >= m {
      assert hi * m == (hi - 1) * m + m;
      RowColBack(k - m, m, hi - 1);
      assert (1 + Row(k - m, m)) * m == m + Row(k - m, m) * m;
    }
  }

  // ----- Indices and positions

  lemma InShapeSnoc(idx: Index, shape: Shape, i: nat, m: nat)
    requires InShape(idx, shape) && i < m
    ensures InShape(idx + [i], shape + [m])
  {
  }

  /** The position of an index in row-major order. */
  function Ravel(idx: Index, shape: Shape): (k: nat)
    requires InShape(idx, shape)
    ensures k < Prod(shape)
  {
    if idx == [] then 0
    else
      var n := |idx| - 1;
      RowBound(Ravel(idx[..n], shape[..n]), shape[n], idx[n], Prod(shape[..n]));
      Ravel(idx[..n], shape[..n]) * shape[n] + idx[n]
  }

  /** The index at a position. */
  function Unravel(k: nat, shape: Shape): (idx: Index)
    requires k < Prod(shape)
    ensures InShape(idx, shape)
  {
    if shape == [] then []
    else
      var init, m := shape[..|shape| - 1], shape[|shape| - 1];
      RowColBack(k, m, Prod(init));
      InShapeSnoc(Unravel(Row(k, m), init), init, Col(k, m), m);
      assert init + [m] == shape;
      Unravel(Row(k, m), init) + [Col(k, m)]
  }

  lemma {:induction false} UnravelRavel(idx: Index, shape: Shape)
    requires InShape(idx, shape)
    ensures Unravel(Ravel(idx, shape), shape) == idx
  {
    if idx != [] {
      var n := |idx| - 1;
      UnravelRavel(idx[..n], shape[..n]);
      RowColOf(Ravel(idx[..n], shape[..n]), shape[n], idx[n]);
    }
  }

  lemma {:induction false} RavelUnravel(k: nat, shape: Shape)
    requires k < Prod(shape)
    ensures Ravel(Unravel(k, shape), shape) == k
  {
    if shape != [] {
      var init, m := shape[..|shape| - 1], shape[|shape| - 1];
      RowColBack(k, m, Prod(init));
      RavelUnravel(Row(k, m), init);
      assert Unravel(k, shape)[..|init|] == Unravel(Row(k, m), init);
    }
  }

  function At(t: Tensor, idx: Index): real
    requires Valid(t) && InShape(idx, t.shape)
  {
    t.data[Ravel(idx, t.shape)]
  }

  /** The tensor of a shape whose entries a function gives. */
  function Build(shape: Shape, f: Index -> real): (t: Tensor)
    ensures Valid(t) && t.shape == shape
  {
    Tensor(shape, seq(Prod(shape), k requires 0 <= k < Prod(shape) => f(Unravel(k, shape))))
  }

  lemma BuildAt(shape: Shape, f: Index -> real, idx: Index)
    requires InShape(idx, shape)
    ensures At(Build(shape, f), idx) == f(idx)
  {
    UnravelRavel(idx, shape);
  }

  /** Tensors of one shape with the same entries are equal. */
  lemma SameEntries(s: Tensor, t: Tensor)
    requires Valid(s) && Valid(t) && s.shape == t.shape
    requires forall idx :: InShape(idx, s.shape) ==> At(s, idx) == At(t, idx)
    ensures s == t
  {
    forall k | 0 <= k < |s.data|
      ensures s.data[k] == t.data[k]
    {
      var idx := Unravel(k, s.shape);
      RavelUnravel(k, s.shape);
      assert At(s, idx) == At(t, idx);
    }
  }
}
