/** Scaling factored weights. */
module Combining {
  import opened Wrappers
  import opened Tensors
  import opened LowRank
  import opened Selecting

  // ----- Broadcasting both ways

  /** Aligned at the end, each axis of the two has the same size, or one of them size 1. */
  predicate Compatible(s: Shape, o: Shape) {
    forall k :: 0 < k <= |s| && k <= |o| ==> AxesMeet(s, o, k)
  }

  /** The k-th axes from the end. */
  predicate AxesMeet(s: Shape, o: Shape, k: nat)
    requires 0 < k <= |s| && k <= |o|
  {
    var a, b := s[|s| - k], o[|o| - k];
    a == b || a == 1 || b == 1
  }

  /** The common shape, where o has no more axes than s. */
  function Common(s: Shape, o: Shape): (c: Shape)
    requires |o| <= |s|
    ensures |c| == |s|
  {
    var d := |s| - |o|;
    seq(|s|, i requires 0 <= i < |s| => if i >= d && s[i] == 1 then o[i - d] else s[i])
  }

  /** The entry of o that meets the entry idx. */
  function PlaceIn(o: Shape, idx: Index): (b: Index)
    requires |o| <= |idx|
    ensures |b| == |o|
  {
    Broadcast(idx[|idx| - |o|..], o)
  }

  lemma PlacesMeet(a: nat, b: nat, i: nat)
    requires (a == b || a == 1 || b == 1) && i < (if a == 1 then b else a)
    ensures (if a == 1 then 0 else i) < a && (if b == 1 then 0 else i) < b
  {
  }

  lemma CommonInShape(s: Shape, o: Shape, idx: Index)
    requires |o| <= |s| && Compatible(s, o) && InShape(idx, Common(s, o))
    ensures InShape(Broadcast(idx, s), s) && InShape(PlaceIn(o, idx), o)
  {
    var c, d, m, b := Common(s, o), |s| - |o|, PlaceIn(o, idx), Broadcast(idx, s);
    forall i | 0 <= i < |s|
      ensures b[i] < s[i] && (i >= d ==> m[i - d] < o[i - d])
    {
      assert idx[i] < c[i];
      if i >= d {
        assert AxesMeet(s, o, |s| - i);
        PlacesMeet(s[i], o[i - d], idx[i]);
      }
    }
    forall i | 0 <= i < |o|
      ensures m[i] < o[i]
    {
      assert m[(i + d) - d] < o[(i + d) - d];
    }
  }

  function AtOrZero(t: Tensor, idx: Index): real
    requires Valid(t)
  {
    if InShape(idx, t.shape) then At(t, idx) else 0.0
  }

  function ScaledEntry(t: Tensor, o: Tensor, idx: Index): real
    requires Valid(t) && Valid(o) && |o.shape| <= |t.shape|
  {
    if |idx| == |t.shape| then AtOrZero(t, Broadcast(idx, t.shape)) * AtOrZero(o, PlaceIn(o.shape, idx)) else 0.0
  }

  /** t * o with torch's broadcasting of both. */
  function MulTensor(t: Tensor, o: Tensor): (t': Tensor)
    requires Valid(t) && Valid(o) && |o.shape| <= |t.shape|
    ensures Valid(t') && t'.shape == Common(t.shape, o.shape)
  {
    Build(Common(t.shape, o.shape), idx => ScaledEntry(t, o, idx))
  }

  lemma MulTensorAt(t: Tensor, o: Tensor, idx: Index, x: real, s: real)
    requires Valid(t) && Valid(o) && |o.shape| <= |t.shape| && InShape(idx, Common(t.shape, o.shape))
    requires AtOrZero(t, Broadcast(idx, t.shape)) == x && AtOrZero(o, PlaceIn(o.shape, idx)) == s
    ensures At(MulTensor(t, o), idx) == x * s
  {
    hide Ravel, Prod, AtOrZero, At;
    BuildAt(Common(t.shape, o.shape), i => ScaledEntry(t, o, i), idx);
  }

  // ----- Scaling

  /** Only a number, or a tensor whose last axis has size 1, may scale a weight. */
  predicate OutputSide(o: Shape) {
    o == [] || o[|o| - 1] == 1
  }

  function Mul(l: Factors, o: Tensor): (r: Result<Factors, Error>)
    requires Proper(l) && Valid(o)
    ensures r.Ok? ==> Proper(r.value) && Rank(r.value) == Rank(l)
  {
    if !OutputSide(o.shape) then Err(NotImplemented)
    else if !Compatible(l.B.shape, o.shape) then Err(TorchError)
    else if |o.shape| > Dims(l) then Err(AssertionFailed)
    else
      StillProper(l, o.shape);
      Ok(Factors(l.A, MulTensor(l.B, o)))
  }

  /** A is broadcast wherever B grows, and the rank stays. */
  lemma StillProper(l: Factors, o: Shape)
    requires Proper(l) && OutputSide(o) && Compatible(l.B.shape, o) && |o| <= Dims(l)
    ensures Broadcasts(l.A.shape, Common(l.B.shape, o))
    ensures Common(l.B.shape, o)[Dims(l) - 1] == Rank(l)
    ensures Common(ShapeOf(l), o) == Common(l.B.shape, o)[..Dims(l) - 1] + [l.A.shape[Dims(l) - 1]]
  {
  }

  function Scale(ts: seq<real>, s: real): (us: seq<real>)
    ensures |us| == |ts|
  {
    seq(|ts|, r requires 0 <= r < |ts| => ts[r] * s)
  }

  lemma ScaleFront(ts: seq<real>, s: real, n: nat)
    requires n <= |ts|
    ensures Scale(ts, s)[..n] == Scale(ts[..n], s)
  {
    forall r | 0 <= r < n
      ensures Scale(ts, s)[r] == Scale(ts[..n], s)[r]
    {
    }
  }

  lemma {:induction false} SumScaled(ts: seq<real>, s: real)
    ensures Sum(Scale(ts, s)) == Sum(ts) * s
  {
    if ts != [] {
      var n := |ts| - 1;
      SumScaled(ts[..n], s);
      ScaleFront(ts, s, n);
      Distribute(Sum(ts[..n]), ts[n], s);
    }
  }

  lemma Distribute(a: real, b: real, s: real)
    ensures (a + b) * s == a * s + b * s
  {
  }

  lemma Reorder(b: real, s: real, a: real)
    ensures (b * s) * a == (b * a) * s
  {
  }

  /** Where the entry at idx of the scaled product comes from. */
  function Source(l: Factors, idx: Index): Index
    requires Proper(l) && |idx| == Dims(l)
  {
    Broadcast(idx, ShapeOf(l))
  }

  /** The scale at idx. */
  function ScaleAt(o: Tensor, idx: Index): real
    requires Valid(o) && |o.shape| <= |idx|
  {
    AtOrZero(o, PlaceIn(o.shape, idx))
  }

  lemma SourceInShape(l: Factors, o: Shape, idx: Index, r: nat)
    requires Proper(l) && OutputSide(o) && Compatible(l.B.shape, o) && |o| <= Dims(l)
    requires InShape(idx, Common(ShapeOf(l), o)) && r < Rank(l)
    ensures InShape(Source(l, idx), ShapeOf(l)) && InShape(IndexB(idx, r), Common(l.B.shape, o))
  {
    hide Compatible;
    SameRowsCompatible(l, o);
    CommonInShape(ShapeOf(l), o, idx);
    StillProper(l, o);
    var b, c := Common(l.B.shape, o), Common(ShapeOf(l), o);
    hide Common;
    assert forall i :: 0 <= i < Dims(l) - 1 ==> c[i] == b[..Dims(l) - 1][i] == b[i];
  }

  lemma SourceB(l: Factors, idx: Index, r: nat)
    requires Proper(l) && |idx| == Dims(l) && r < Rank(l)
    ensures Broadcast(IndexB(idx, r), l.B.shape) == IndexB(Source(l, idx), r)
  {
    var n, x, y := Dims(l), Broadcast(IndexB(idx, r), l.B.shape), IndexB(Source(l, idx), r);
    forall i | 0 <= i < n
      ensures x[i] == y[i]
    {
      if i < n - 1 {
        assert ShapeOf(l)[i] == l.B.shape[i];
      }
    }
  }

  lemma SourceA(l: Factors, idx: Index, r: nat)
    requires Proper(l) && |idx| == Dims(l) && InShape(Source(l, idx), ShapeOf(l))
    requires idx[Dims(l) - 1] < l.A.shape[Dims(l) - 1]
    ensures IndexA(l.A.shape, idx, r) == IndexA(l.A.shape, Source(l, idx), r)
  {
    var n, x, y := Dims(l), IndexA(l.A.shape, idx, r), IndexA(l.A.shape, Source(l, idx), r);
    forall i | 0 <= i < n
      ensures x[i] == y[i]
    {
      if i < n - 2 {
        assert ShapeOf(l)[i] == l.B.shape[i];
      }
    }
  }

  lemma SourceO(o: Shape, idx: Index, r: nat)
    requires idx != [] && |o| <= |idx| && OutputSide(o)
    ensures PlaceIn(o, IndexB(idx, r)) == PlaceIn(o, idx)
  {
    var x, y := PlaceIn(o, IndexB(idx, r)), PlaceIn(o, idx);
    forall i | 0 <= i < |o|
      ensures x[i] == y[i]
    {
    }
  }

  /** The entries of B and A that meet, before and after; the scale of an entry of B depends on its row only. */
  lemma SourceIndices(l: Factors, o: Tensor, idx: Index, r: nat)
    requires Proper(l) && Valid(o) && OutputSide(o.shape) && Compatible(l.B.shape, o.shape) && |o.shape| <= Dims(l)
    requires InShape(idx, Common(ShapeOf(l), o.shape)) && r < Rank(l)
    ensures InShape(Source(l, idx), ShapeOf(l)) && InShape(IndexB(idx, r), Common(l.B.shape, o.shape))
    ensures Broadcast(IndexB(idx, r), l.B.shape) == IndexB(Source(l, idx), r)
    ensures IndexA(l.A.shape, idx, r) == IndexA(l.A.shape, Source(l, idx), r)
    ensures PlaceIn(o.shape, IndexB(idx, r)) == PlaceIn(o.shape, idx)
  {
    hide Compatible, PlaceIn, Broadcast, IndexA, IndexB;
    SourceInShape(l, o.shape, idx, r);
    SourceB(l, idx, r);
    StillProper(l, o.shape);
    hide Common;
    SourceA(l, idx, r);
    SourceO(o.shape, idx, r);
  }

  lemma MulTerm(l: Factors, o: Tensor, idx: Index, r: nat)
    requires Proper(l) && Valid(o) && Mul(l, o).Ok? && InShape(idx, Common(ShapeOf(l), o.shape)) && r < Rank(l)
    ensures InShape(idx, ShapeOf(Mul(l, o).value)) && InShape(Source(l, idx), ShapeOf(l))
    ensures Term(Mul(l, o).value, idx, r) == Term(l, Source(l, idx), r) * ScaleAt(o, idx)
  {
    hide Ravel, Prod, At, Term, MulTensor, Common, Broadcast, PlaceIn, Compatible;
    StillProper(l, o.shape);
    SourceIndices(l, o, idx, r);
    var src, l' := Source(l, idx), Mul(l, o).value;
    IndicesInShape(l, src, r);
    var a, b, s := At(l.A, IndexA(l.A.shape, src, r)), At(l.B, IndexB(src, r)), ScaleAt(o, idx);
    MulTensorAt(l.B, o, IndexB(idx, r), b, s);
    TermIs(l, src, r, b, a);
    IndicesInShape(l', idx, r);
    TermIs(l', idx, r, b * s, a);
    Reorder(b, s, a);
  }

  lemma MulTerms(l: Factors, o: Tensor, idx: Index)
    requires Proper(l) && Valid(o) && Mul(l, o).Ok? && InShape(idx, Common(ShapeOf(l), o.shape))
    ensures InShape(idx, ShapeOf(Mul(l, o).value)) && InShape(Source(l, idx), ShapeOf(l))
    ensures Terms(Mul(l, o).value, idx) == Scale(Terms(l, Source(l, idx)), ScaleAt(o, idx))
  {
    hide Term, ScaleAt, Mul, Ravel, Prod, At, Common, Source;
    MulShapes(l, o, idx);
    var us, vs := Terms(Mul(l, o).value, idx), Scale(Terms(l, Source(l, idx)), ScaleAt(o, idx));
    forall r | 0 <= r < |us|
      ensures us[r] == vs[r]
    {
      MulTerm(l, o, idx, r);
    }
  }

  lemma MulShapes(l: Factors, o: Tensor, idx: Index)
    requires Proper(l) && Valid(o) && Mul(l, o).Ok? && InShape(idx, Common(ShapeOf(l), o.shape))
    ensures |o.shape| <= |idx| && ShapeOf(Mul(l, o).value) == Common(ShapeOf(l), o.shape) && InShape(Source(l, idx), ShapeOf(l))
  {
    hide Ravel, Prod, At, MulTensor;
    StillProper(l, o.shape);
    SameRowsCompatible(l, o.shape);
    CommonInShape(ShapeOf(l), o.shape, idx);
  }

  lemma MulEntry(l: Factors, o: Tensor, idx: Index)
    requires Proper(l) && Valid(o) && Mul(l, o).Ok? && InShape(idx, Common(ShapeOf(l), o.shape))
    ensures |o.shape| <= |idx| && InShape(idx, ShapeOf(Mul(l, o).value)) && InShape(Source(l, idx), ShapeOf(l))
    ensures Entry(Mul(l, o).value, idx) == Entry(l, Source(l, idx)) * ScaleAt(o, idx)
  {
    hide Sum, Term, Mul, Common, Source, ScaleAt, Scale;
    MulShapes(l, o, idx);
    MulTerms(l, o, idx);
    SumScaled(Terms(l, Source(l, idx)), ScaleAt(o, idx));
  }

  lemma MulAt(l: Factors, o: Tensor, idx: Index)
    requires Proper(l) && Valid(o) && Mul(l, o).Ok? && InShape(idx, Common(ShapeOf(l), o.shape))
    ensures ShapeOf(Mul(l, o).value) == Common(ShapeOf(l), o.shape)
    ensures At(Dense(Mul(l, o).value), idx) == At(MulTensor(Dense(l), o), idx)
  {
    hide Entry, At, MulTensor, Dense, Mul, Common, PlaceIn, Broadcast;
    MulShapes(l, o, idx);
    MulEntry(l, o, idx);
    var src := Source(l, idx);
    DenseAt(l, src);
    DenseAt(Mul(l, o).value, idx);
    MulTensorAt(Dense(l), o, idx, Entry(l, src), ScaleAt(o, idx));
  }

  /** Scaling B scales the product: it grows where the factor does. */
  lemma MulMeaning(l: Factors, o: Tensor)
    requires Proper(l) && Valid(o)
    ensures Mul(l, o).Ok? <==> OutputSide(o.shape) && |o.shape| <= Dims(l) && Compatible(ShapeOf(l), o.shape)
    ensures Mul(l, o).Ok? ==> Dense(Mul(l, o).value) == MulTensor(Dense(l), o)
  {
    hide MulTensor, Dense, Common;
    SameRowsCompatible(l, o.shape);
    if Mul(l, o).Ok? {
      var l' := Mul(l, o).value;
      MulGrows(l, o);
      forall idx | InShape(idx, ShapeOf(l'))
        ensures At(Dense(l'), idx) == At(MulTensor(Dense(l), o), idx)
      {
        MulAt(l, o, idx);
      }
      SameEntries(Dense(l'), MulTensor(Dense(l), o));
    }
  }

  lemma MulGrows(l: Factors, o: Tensor)
    requires Proper(l) && Valid(o) && Mul(l, o).Ok?
    ensures ShapeOf(Mul(l, o).value) == Common(ShapeOf(l), o.shape)
  {
    hide MulTensor;
    StillProper(l, o.shape);
  }

  /** With a last axis of size 1, meeting B and meeting the product are the same. */
  lemma SameRowsCompatible(l: Factors, o: Shape)
    requires Proper(l)
    ensures OutputSide(o) ==> (Compatible(l.B.shape, o) <==> Compatible(ShapeOf(l), o))
  {
    var n, b, s := Dims(l), l.B.shape, ShapeOf(l);
    if OutputSide(o) {
      forall k | 0 < k <= n && k <= |o|
        ensures AxesMeet(b, o, k) <==> AxesMeet(s, o, k)
      {
        if k > 1 {
          assert b[n - k] == s[n - k];
        }
      }
    }
  }

  /** Places src of t and m of o that meet at idx: aligned at the end, those of idx but for axes of size 1. */
  predicate Meeting(t: Shape, o: Shape, idx: Index, src: Index, m: Index) {
    && |o| <= |t| == |idx| && InShape(src, t) && InShape(m, o)
    && (forall i :: 0 <= i < |t| ==> src[i] == idx[i] || t[i] == 1)
    && (forall i :: 0 <= i < |o| ==> m[i] == idx[|t| - |o| + i] || o[i] == 1)
  }

  /** An entry of the scaled tensor is the product of the two that meet there, and its shape is the larger on every axis. */
  lemma MulTensorExactly(t: Tensor, o: Tensor, idx: Index, src: Index, m: Index)
    requires Valid(t) && Valid(o) && |o.shape| <= |t.shape| && InShape(idx, MulTensor(t, o).shape)
    requires Meeting(t.shape, o.shape, idx, src, m)
    ensures At(MulTensor(t, o), idx) == At(t, src) * At(o, m)
    ensures var d := |t.shape| - |o.shape|;
            forall i :: 0 <= i < |t.shape| ==>
              MulTensor(t, o).shape[i] == if i >= d && t.shape[i] == 1 then o.shape[i - d] else t.shape[i]
  {
    hide Ravel, Prod, At;
    var b, c := Broadcast(idx, t.shape), PlaceIn(o.shape, idx);
    assert b == src && c == m by {
      assert forall i :: 0 <= i < |src| ==> src[i] < t.shape[i];
      assert forall i :: 0 <= i < |m| ==> m[i] < o.shape[i];
    }
    MulTensorAt(t, o, idx, At(t, src), At(o, m));
  }

  /** Every entry of the scaled tensor has such places. */
  lemma MulTensorPlaces(t: Shape, o: Shape, idx: Index) returns (src: Index, m: Index)
    requires |o| <= |t| && Compatible(t, o) && InShape(idx, Common(t, o))
    ensures Meeting(t, o, idx, src, m)
  {
    CommonInShape(t, o, idx);
    src, m := Broadcast(idx, t), PlaceIn(o, idx);
  }

  /** Aligned at the end, every axis of x has the size c asks for, or size 1. */
  predicate ExpandsTo(x: Shape, c: Shape) {
    |x| <= |c| && forall i :: 0 <= i < |x| ==> x[i] == 1 || x[i] == c[|c| - |x| + i]
  }

  /** Two shapes broadcast with each other exactly if both expand to one shape. */
  lemma CompatibleMeaning(s: Shape, o: Shape)
    requires |o| <= |s|
    ensures Compatible(s, o) <==> exists c: Shape :: ExpandsTo(s, c) && ExpandsTo(o, c)
  {
    if Compatible(s, o) {
      var c, d := Common(s, o), |s| - |o|;
      forall i | 0 <= i < |o|
        ensures o[i] == 1 || o[i] == c[d + i]
      {
        assert AxesMeet(s, o, |o| - i);
      }
      assert ExpandsTo(s, c) && ExpandsTo(o, c);
    }
    forall c: Shape, k | ExpandsTo(s, c) && ExpandsTo(o, c) && 0 < k <= |s| && k <= |o|
      ensures AxesMeet(s, o, k)
    {
      assert s[|s| - k] == 1 || s[|s| - k] == c[|c| - k];
      assert o[|o| - k] == 1 || o[|o| - k] == c[|c| - k];
    }
  }
}
