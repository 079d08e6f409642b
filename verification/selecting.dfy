/** Slicing, indexing and splitting a factored weight along its axes. */
module Selecting {
  import opened Wrappers
  import opened Tensors
  import opened LowRank

  // ----- On dense tensors

  predicate Positions(pos: seq<nat>, size: nat) {
    forall i :: 0 <= i < |pos| ==> pos[i] < size
  }

  function SelectIndex(axis: nat, pos: seq<nat>, idx: Index): Index {
    if axis < |idx| && idx[axis] < |pos| then idx[axis := pos[idx[axis]]] else idx
  }

  /** Keep the given positions along one axis. */
  function Select(t: Tensor, axis: nat, pos: seq<nat>): (t': Tensor)
    requires Valid(t) && axis < |t.shape| && Positions(pos, t.shape[axis])
    ensures Valid(t') && t'.shape == t.shape[axis := |pos|]
  {
    Remap(t, t.shape[axis := |pos|], idx => SelectIndex(axis, pos, idx))
  }

  lemma SelectAt(t: Tensor, axis: nat, pos: seq<nat>, idx: Index)
    requires Valid(t) && axis < |t.shape| && Positions(pos, t.shape[axis])
    requires InShape(idx, t.shape[axis := |pos|])
    ensures InShape(SelectIndex(axis, pos, idx), t.shape)
    ensures At(Select(t, axis, pos), idx) == At(t, SelectIndex(axis, pos, idx))
  {
    RemapAt(t, t.shape[axis := |pos|], i => SelectIndex(axis, pos, i), idx);
  }

  /** The shape without one axis, and an index with a place put back. */
  function Without(shape: Shape, axis: nat): Shape
    requires axis < |shape|
  {
    shape[..axis] + shape[axis + 1..]
  }

  function Insert(idx: Index, axis: nat, i: nat): Index {
    if axis <= |idx| then idx[..axis] + [i] + idx[axis..] else idx
  }

  /** Fix one position along an axis and drop the axis. */
  function Pick(t: Tensor, axis: nat, i: nat): (t': Tensor)
    requires Valid(t) && axis < |t.shape| && i < t.shape[axis]
    ensures Valid(t') && t'.shape == Without(t.shape, axis)
  {
    Remap(t, Without(t.shape, axis), idx => Insert(idx, axis, i))
  }

  lemma InsertInShape(idx: Index, shape: Shape, axis: nat, i: nat)
    requires axis < |shape| && i < shape[axis] && InShape(idx, Without(shape, axis))
    ensures InShape(Insert(idx, axis, i), shape)
  {
    var full := Insert(idx, axis, i);
    forall k | 0 <= k < |shape|
      ensures full[k] < shape[k]
    {
      if k > axis {
        assert full[k] == idx[k - 1] && Without(shape, axis)[k - 1] == shape[k];
      }
    }
  }

  lemma PickAt(t: Tensor, axis: nat, i: nat, idx: Index)
    requires Valid(t) && axis < |t.shape| && i < t.shape[axis] && InShape(idx, Without(t.shape, axis))
    ensures InShape(Insert(idx, axis, i), t.shape)
    ensures At(Pick(t, axis, i), idx) == At(t, Insert(idx, axis, i))
  {
    InsertInShape(idx, t.shape, axis, i);
    RemapAt(t, Without(t.shape, axis), k => Insert(k, axis, i), idx);
  }

  // ----- On one axis of the factors

  /** Column positions touch A only. */
  function SelectCols(l: Factors, pos: seq<nat>): (l': Factors)
    requires Proper(l) && Positions(pos, l.A.shape[Dims(l) - 1])
    ensures Proper(l') && Rank(l') == Rank(l) && ShapeOf(l') == ShapeOf(l)[Dims(l) - 1 := |pos|]
  {
    Factors(Select(l.A, Dims(l) - 1, pos), l.B)
  }

  lemma SelectColsDense(l: Factors, pos: seq<nat>)
    requires Proper(l) && Positions(pos, l.A.shape[Dims(l) - 1])
    ensures Dense(SelectCols(l, pos)) == Select(Dense(l), Dims(l) - 1, pos)
  {
    hide Ravel, Prod, At, Term, Dense;
    var l', axis := SelectCols(l, pos), Dims(l) - 1;
    var g := idx => SelectIndex(axis, pos, idx);
    forall idx | InShape(idx, ShapeOf(l'))
      ensures Follows(l, l', g, idx)
    {
      forall r | 0 <= r < Rank(l)
        ensures Terms(l', idx)[r] == Terms(l, g(idx))[r]
      {
        SelectColsTerm(l, pos, idx, r);
      }
    }
    FactorsFollow(l, l', g);
  }

  lemma SelectColsTerm(l: Factors, pos: seq<nat>, idx: Index, r: nat)
    requires Proper(l) && Positions(pos, l.A.shape[Dims(l) - 1])
    requires InShape(idx, ShapeOf(SelectCols(l, pos))) && r < Rank(l)
    ensures InShape(SelectIndex(Dims(l) - 1, pos, idx), ShapeOf(l))
    ensures Term(SelectCols(l, pos), idx, r) == Term(l, SelectIndex(Dims(l) - 1, pos, idx), r)
  {
    hide Ravel, Prod, At, Term;
    var l', axis := SelectCols(l, pos), Dims(l) - 1;
    var src := SelectIndex(axis, pos, idx);
    IndicesInShape(l', idx, r);
    IndicesInShape(l, src, r);
    assert IndexB(src, r) == IndexB(idx, r);
    SelectAt(l.A, axis, pos, IndexA(l'.A.shape, idx, r));
    assert SelectIndex(axis, pos, IndexA(l'.A.shape, idx, r)) == IndexA(l.A.shape, src, r);
    TermsMeet(l', idx, l, src, r);
  }

  /** Row positions touch B only. */
  function SelectRows(l: Factors, pos: seq<nat>): (l': Factors)
    requires Proper(l) && Positions(pos, l.B.shape[Dims(l) - 2])
    ensures Proper(l') && Rank(l') == Rank(l) && ShapeOf(l') == ShapeOf(l)[Dims(l) - 2 := |pos|]
  {
    Factors(l.A, Select(l.B, Dims(l) - 2, pos))
  }

  lemma SelectRowsTerm(l: Factors, pos: seq<nat>, idx: Index, r: nat)
    requires Proper(l) && Positions(pos, l.B.shape[Dims(l) - 2])
    requires InShape(idx, ShapeOf(SelectRows(l, pos))) && r < Rank(l)
    ensures InShape(SelectIndex(Dims(l) - 2, pos, idx), ShapeOf(l))
    ensures Term(SelectRows(l, pos), idx, r) == Term(l, SelectIndex(Dims(l) - 2, pos, idx), r)
  {
    hide Ravel, Prod, At, Term;
    var l', axis := SelectRows(l, pos), Dims(l) - 2;
    var src := SelectIndex(axis, pos, idx);
    IndicesInShape(l', idx, r);
    IndicesInShape(l, src, r);
    assert IndexA(l.A.shape, src, r) == IndexA(l'.A.shape, idx, r);
    SelectAt(l.B, axis, pos, IndexB(idx, r));
    assert SelectIndex(axis, pos, IndexB(idx, r)) == IndexB(src, r);
    TermsMeet(l', idx, l, src, r);
  }

  lemma SelectRowsDense(l: Factors, pos: seq<nat>)
    requires Proper(l) && Positions(pos, l.B.shape[Dims(l) - 2])
    ensures Dense(SelectRows(l, pos)) == Select(Dense(l), Dims(l) - 2, pos)
  {
    var l', axis := SelectRows(l, pos), Dims(l) - 2;
    var g := idx => SelectIndex(axis, pos, idx);
    forall idx | InShape(idx, ShapeOf(l'))
      ensures Follows(l, l', g, idx)
    {
      forall r | 0 <= r < Rank(l)
        ensures Terms(l', idx)[r] == Terms(l, g(idx))[r]
      {
        SelectRowsTerm(l, pos, idx, r);
      }
    }
    FactorsFollow(l, l', g);
  }

  /** Positions along a leading axis: A follows unless it is broadcast there. */
  function SelectLead(l: Factors, axis: nat, pos: seq<nat>): (l': Factors)
    requires Proper(l) && axis < Dims(l) - 2 && Positions(pos, l.B.shape[axis])
    ensures Proper(l') && Rank(l') == Rank(l) && ShapeOf(l') == ShapeOf(l)[axis := |pos|]
  {
    Factors(if l.A.shape[axis] == 1 then l.A else Select(l.A, axis, pos), Select(l.B, axis, pos))
  }

  lemma SelectLeadA(l: Factors, axis: nat, pos: seq<nat>, idx: Index, r: nat)
    requires Proper(l) && axis < Dims(l) - 2 && Positions(pos, l.B.shape[axis])
    requires InShape(idx, ShapeOf(SelectLead(l, axis, pos))) && r < Rank(l)
    requires InShape(SelectIndex(axis, pos, idx), ShapeOf(l))
    ensures var l', src := SelectLead(l, axis, pos), SelectIndex(axis, pos, idx);
            && InShape(IndexA(l'.A.shape, idx, r), l'.A.shape) && InShape(IndexA(l.A.shape, src, r), l.A.shape)
            && At(l'.A, IndexA(l'.A.shape, idx, r)) == At(l.A, IndexA(l.A.shape, src, r))
  {
    hide Ravel, Prod, At, Select;
    var l', src := SelectLead(l, axis, pos), SelectIndex(axis, pos, idx);
    IndicesInShape(l', idx, r);
    IndicesInShape(l, src, r);
    if l.A.shape[axis] == 1 {
      assert IndexA(l'.A.shape, idx, r) == IndexA(l.A.shape, src, r);
    } else {
      SelectAt(l.A, axis, pos, IndexA(l'.A.shape, idx, r));
      assert SelectIndex(axis, pos, IndexA(l'.A.shape, idx, r)) == IndexA(l.A.shape, src, r);
    }
  }

  lemma SelectLeadTerm(l: Factors, axis: nat, pos: seq<nat>, idx: Index, r: nat)
    requires Proper(l) && axis < Dims(l) - 2 && Positions(pos, l.B.shape[axis])
    requires InShape(idx, ShapeOf(SelectLead(l, axis, pos))) && r < Rank(l)
    ensures InShape(SelectIndex(axis, pos, idx), ShapeOf(l))
    ensures Term(SelectLead(l, axis, pos), idx, r) == Term(l, SelectIndex(axis, pos, idx), r)
  {
    hide Ravel, Prod, At, Term, Select;
    var l', src := SelectLead(l, axis, pos), SelectIndex(axis, pos, idx);
    IndicesInShape(l', idx, r);
    SelectLeadA(l, axis, pos, idx, r);
    SelectAt(l.B, axis, pos, IndexB(idx, r));
    assert SelectIndex(axis, pos, IndexB(idx, r)) == IndexB(src, r);
    TermsMeet(l', idx, l, src, r);
  }

  lemma SelectLeadDense(l: Factors, axis: nat, pos: seq<nat>)
    requires Proper(l) && axis < Dims(l) - 2 && Positions(pos, l.B.shape[axis])
    ensures Dense(SelectLead(l, axis, pos)) == Select(Dense(l), axis, pos)
  {
    var l' := SelectLead(l, axis, pos);
    var g := idx => SelectIndex(axis, pos, idx);
    forall idx | InShape(idx, ShapeOf(l'))
      ensures Follows(l, l', g, idx)
    {
      forall r | 0 <= r < Rank(l)
        ensures Terms(l', idx)[r] == Terms(l, g(idx))[r]
      {
        SelectLeadTerm(l, axis, pos, idx, r);
      }
    }
    FactorsFollow(l, l', g);
  }

  /** One position of a leading axis, which disappears. */
  function PickLead(l: Factors, axis: nat, i: nat): (l': Factors)
    requires Proper(l) && axis < Dims(l) - 2 && i < l.B.shape[axis]
    ensures Proper(l') && Rank(l') == Rank(l) && ShapeOf(l') == Without(ShapeOf(l), axis)
  {
    Factors(Pick(l.A, axis, if l.A.shape[axis] == 1 then 0 else i), Pick(l.B, axis, i))
  }

  lemma InsertBroadcast(shape: Shape, axis: nat, lead: Index, i: nat)
    requires |lead| + 3 == |shape| && axis <= |lead|
    ensures Insert(Broadcast(lead, Without(shape, axis)), axis, if shape[axis] == 1 then 0 else i)
         == Broadcast(Insert(lead, axis, i), shape)
  {
    var a := if shape[axis] == 1 then 0 else i;
    var x, y := Insert(Broadcast(lead, Without(shape, axis)), axis, a), Broadcast(Insert(lead, axis, i), shape);
    forall k | 0 <= k < |x|
      ensures x[k] == y[k]
    {
    }
  }

  lemma InsertBefore(lead: Index, axis: nat, i: nat, tail: Index)
    requires axis <= |lead|
    ensures Insert(lead + tail, axis, i) == Insert(lead, axis, i) + tail
  {
    assert (lead + tail)[..axis] == lead[..axis];
    assert (lead + tail)[axis..] == lead[axis..] + tail;
    Associate(lead[..axis] + [i], lead[axis..], tail);
  }

  lemma InsertIndexA(shape: Shape, axis: nat, idx: Index, i: nat, r: nat)
    requires |idx| + 1 == |shape| && axis + 2 < |shape|
    ensures Insert(IndexA(Without(shape, axis), idx, r), axis, if shape[axis] == 1 then 0 else i)
         == IndexA(shape, Insert(idx, axis, i), r)
  {
    var lead, x, y := idx[..|idx| - 2], idx[|idx| - 2], idx[|idx| - 1];
    assert idx == lead + [x, y];
    InsertBefore(lead, axis, i, [x, y]);
    InsertBefore(Broadcast(lead, Without(shape, axis)), axis, if shape[axis] == 1 then 0 else i, [r, y]);
    InsertBroadcast(shape, axis, lead, i);
  }

  lemma InsertIndexB(axis: nat, idx: Index, i: nat, r: nat)
    requires axis < |idx|
    ensures Insert(IndexB(idx, r), axis, i) == IndexB(Insert(idx, axis, i), r)
  {
  }

  lemma PickLeadA(l: Factors, axis: nat, i: nat, idx: Index, r: nat)
    requires Proper(l) && axis < Dims(l) - 2 && i < l.B.shape[axis]
    requires InShape(idx, ShapeOf(PickLead(l, axis, i))) && r < Rank(l)
    requires InShape(Insert(idx, axis, i), ShapeOf(l))
    ensures var l', src := PickLead(l, axis, i), Insert(idx, axis, i);
            && InShape(IndexA(l'.A.shape, idx, r), l'.A.shape) && InShape(IndexA(l.A.shape, src, r), l.A.shape)
            && At(l'.A, IndexA(l'.A.shape, idx, r)) == At(l.A, IndexA(l.A.shape, src, r))
  {
    var l', src := PickLead(l, axis, i), Insert(idx, axis, i);
    var a := if l.A.shape[axis] == 1 then 0 else i;
    IndicesInShape(l', idx, r);
    IndicesInShape(l, src, r);
    PickAt(l.A, axis, a, IndexA(l'.A.shape, idx, r));
    InsertIndexA(l.A.shape, axis, idx, i, r);
  }

  lemma PickLeadTerm(l: Factors, axis: nat, i: nat, idx: Index, r: nat)
    requires Proper(l) && axis < Dims(l) - 2 && i < l.B.shape[axis]
    requires InShape(idx, ShapeOf(PickLead(l, axis, i))) && r < Rank(l)
    ensures InShape(Insert(idx, axis, i), ShapeOf(l))
    ensures Term(PickLead(l, axis, i), idx, r) == Term(l, Insert(idx, axis, i), r)
  {
    var l', src := PickLead(l, axis, i), Insert(idx, axis, i);
    InsertInShape(idx, ShapeOf(l), axis, i);
    IndicesInShape(l', idx, r);
    PickLeadA(l, axis, i, idx, r);
    PickAt(l.B, axis, i, IndexB(idx, r));
    InsertIndexB(axis, idx, i, r);
    TermsMeet(l', idx, l, src, r);
  }

  lemma PickLeadDense(l: Factors, axis: nat, i: nat)
    requires Proper(l) && axis < Dims(l) - 2 && i < l.B.shape[axis]
    ensures Dense(PickLead(l, axis, i)) == Pick(Dense(l), axis, i)
  {
    var l' := PickLead(l, axis, i);
    var g := idx => Insert(idx, axis, i);
    forall idx | InShape(idx, ShapeOf(l'))
      ensures Follows(l, l', g, idx)
    {
      InsertInShape(idx, ShapeOf(l), axis, i);
      forall r | 0 <= r < Rank(l)
        ensures Terms(l', idx)[r] == Terms(l, g(idx))[r]
      {
        PickLeadTerm(l, axis, i, idx, r);
      }
    }
    FactorsFollow(l, l', g);
  }

  // ----- Splitting

  /** What torch.split takes: a chunk size or the list of all sizes. */
  datatype SplitSize = Every(size: int) | Sizes(sizes: seq<int>)

  function Span(from: nat, to: nat): (pos: seq<nat>)
    requires from <= to
    ensures |pos| == to - from && forall i :: 0 <= i < |pos| ==> pos[i] == from + i
  {
    seq(to - from, i requires 0 <= i < to - from => from + i)
  }

  function Total(sizes: seq<nat>): nat {
    if sizes == [] then 0 else sizes[0] + Total(sizes[1..])
  }

  function Cut(dim: nat, size: nat): (sizes: seq<nat>)
    requires size > 0
    ensures Total(sizes) == dim
  {
    if dim <= size then [dim] else [size] + Cut(dim - size, size)
  }

  function SplitSizes(spec: SplitSize, dim: nat): (r: Result<seq<nat>, Error>)
    ensures r.Ok? ==> Total(r.value) == dim
  {
    match spec
    case Every(size) =>
      if size > 0 then Ok(Cut(dim, size))
      else if size == 0 && dim == 0 then Ok([0])
      else Err(TorchError)
    case Sizes(sizes) =>
      if forall i :: 0 <= i < |sizes| ==> sizes[i] >= 0 then
        var ns: seq<nat> := seq(|sizes|, i requires 0 <= i < |sizes| => sizes[i]);
        if Total(ns) == dim then Ok(ns) else Err(TorchError)
      else Err(TorchError)
  }

  /** Chunks of one size are all of that size but the last, which is what remains; an empty axis is one empty chunk. */
  lemma CutSizes(dim: nat, size: nat)
    requires size > 0
    ensures var c := Cut(dim, size);
            && |c| > 0
            && (forall k :: 0 <= k < |c| - 1 ==> c[k] == size)
            && (if dim == 0 then c == [0] else 0 < c[|c| - 1] <= size)
  {
    if dim > size {
      CutSizes(dim - size, size);
    }
  }

  /** A list of sizes is taken as it is, if it adds up; a size of 0 is only for an empty axis. */
  lemma SplitSizesExactly(spec: SplitSize, dim: nat)
    ensures spec.Every? ==> (SplitSizes(spec, dim).Ok? <==> spec.size > 0 || (spec.size == 0 && dim == 0))
    ensures spec.Every? && spec.size > 0 ==> SplitSizes(spec, dim) == Ok(Cut(dim, spec.size))
    ensures spec.Every? && spec.size == 0 && dim == 0 ==> SplitSizes(spec, dim) == Ok([0])
    ensures spec.Sizes? && (exists i :: 0 <= i < |spec.sizes| && spec.sizes[i] < 0) ==> SplitSizes(spec, dim).Err?
    ensures forall ns: seq<nat> :: spec == Sizes(ns) ==> SplitSizes(spec, dim) == if Total(ns) == dim then Ok(ns) else Err(TorchError)
  {
    forall ns: seq<nat> | spec == Sizes(ns)
      ensures SplitSizes(spec, dim) == if Total(ns) == dim then Ok(ns) else Err(TorchError)
    {
      var copy: seq<nat> := seq(|spec.sizes|, i requires 0 <= i < |spec.sizes| => spec.sizes[i]);
      assert copy == ns;
    }
  }

  /** The positions of consecutive chunks. */
  function Chunks(sizes: seq<nat>, from: nat): (chunks: seq<seq<nat>>)
    ensures |chunks| == |sizes|
    ensures forall k :: 0 <= k < |chunks| ==> |chunks[k]| == sizes[k] && Positions(chunks[k], from + Total(sizes))
  {
    if sizes == [] then []
    else [Span(from, from + sizes[0])] + Chunks(sizes[1..], from + sizes[0])
  }

  function Joined(chunks: seq<seq<nat>>): seq<nat> {
    if chunks == [] then [] else chunks[0] + Joined(chunks[1..])
  }

  /** Together, in order, the chunks are all positions of the axis. */
  lemma ChunksCover(sizes: seq<nat>, from: nat)
    ensures Joined(Chunks(sizes, from)) == Span(from, from + Total(sizes))
  {
    if sizes != [] {
      ChunksCover(sizes[1..], from + sizes[0]);
    }
  }

  function SelectAxis(l: Factors, axis: nat, pos: seq<nat>): (l': Factors)
    requires Proper(l) && axis < Dims(l) && Positions(pos, ShapeOf(l)[axis])
    ensures Proper(l') && Rank(l') == Rank(l) && ShapeOf(l') == ShapeOf(l)[axis := |pos|]
  {
    if axis == Dims(l) - 1 then SelectCols(l, pos)
    else if axis == Dims(l) - 2 then SelectRows(l, pos)
    else SelectLead(l, axis, pos)
  }

  /** Selecting positions along any axis of the factors selects them in the product. */
  lemma SelectAxisDense(l: Factors, axis: nat, pos: seq<nat>)
    requires Proper(l) && axis < Dims(l) && Positions(pos, ShapeOf(l)[axis])
    ensures Dense(SelectAxis(l, axis, pos)) == Select(Dense(l), axis, pos)
  {
    if axis == Dims(l) - 1 {
      SelectColsDense(l, pos);
    } else if axis == Dims(l) - 2 {
      SelectRowsDense(l, pos);
    } else {
      SelectLeadDense(l, axis, pos);
    }
  }

  function SplitTensor(t: Tensor, axis: nat, sizes: seq<nat>): (ts: seq<Tensor>)
    requires Valid(t) && axis < |t.shape| && Total(sizes) == t.shape[axis]
    ensures |ts| == |sizes|
  {
    var chunks := Chunks(sizes, 0);
    seq(|sizes|, k requires 0 <= k < |sizes| => Select(t, axis, chunks[k]))
  }

  /** The axis a number names: the code adds n to a negative one, and torch does so once more. */
  function Axis(dim: int, n: nat): int {
    var d := if dim < 0 then dim + n else dim;
    if d < 0 then d + n else d
  }

  lemma AxisExactly(dim: int, n: nat)
    ensures dim >= 0 ==> Axis(dim, n) == dim
    ensures dim < 0 && dim + n >= 0 ==> Axis(dim, n) == dim + n
    ensures dim + n < 0 ==> Axis(dim, n) == dim + n + n
  {
  }

  /** A number so far below zero that the code does not notice that it names one of the last two axes. */
  predicate Unnoticed(dim: int, n: nat) {
    dim + n < 0 && n <= Axis(dim, n) + 2 && Axis(dim, n) < n
  }

  /** Both factors cut along the same axis, A only where it is not of size 1, and paired as far as both reach. */
  function SplitBoth(l: Factors, spec: SplitSize, axis: nat): Result<seq<Factors>, Error>
    requires Proper(l) && axis < Dims(l)
  {
    match SplitSizes(spec, l.B.shape[axis])
    case Err(e) => Err(e)
    case Ok(sizesB) =>
      var bs := SplitTensor(l.B, axis, sizesB);
      if l.A.shape[axis] == 1 then Pairs(seq(|bs|, _ => l.A), bs)
      else
        match SplitSizes(spec, l.A.shape[axis])
        case Err(e) => Err(e)
        case Ok(sizesA) => Pairs(SplitTensor(l.A, axis, sizesA), bs)
  }

  function Pairs(as': seq<Tensor>, bs: seq<Tensor>): Result<seq<Factors>, Error> {
    var m := if |as'| <= |bs| then |as'| else |bs|;
    if forall k :: 0 <= k < m ==> Constructs(as'[k], bs[k])
    then Ok(seq(m, k requires 0 <= k < m => Factors(as'[k], bs[k])))
    else Err(AssertionFailed)
  }

  function Split(l: Factors, spec: SplitSize, dim: int): Result<seq<Factors>, Error>
    requires Proper(l)
  {
    var axis := Axis(dim, Dims(l));
    if !(0 <= axis < Dims(l)) then Err(IndexOutOfRange)
    else if Unnoticed(dim, Dims(l)) then SplitBoth(l, spec, axis)
    else
      match SplitSizes(spec, ShapeOf(l)[axis])
      case Err(e) => Err(e)
      case Ok(sizes) =>
        var chunks := Chunks(sizes, 0);
        Ok(seq(|sizes|, k requires 0 <= k < |sizes| => SelectAxis(l, axis, chunks[k])))
  }

  /** Every part of a split stands for that part of the product. */
  lemma SplitMeaning(l: Factors, spec: SplitSize, dim: int)
    requires Proper(l) && !Unnoticed(dim, Dims(l))
    ensures var axis := Axis(dim, Dims(l));
            Split(l, spec, dim).Ok? <==> 0 <= axis < Dims(l) && SplitSizes(spec, ShapeOf(l)[axis]).Ok?
    ensures Split(l, spec, dim).Ok? ==>
              var axis := Axis(dim, Dims(l));
              var sizes := SplitSizes(spec, ShapeOf(l)[axis]).value;
              var parts := Split(l, spec, dim).value;
              && |parts| == |sizes|
              && forall k :: 0 <= k < |parts| ==>
                   Proper(parts[k]) && Dense(parts[k]) == SplitTensor(Dense(l), axis, sizes)[k]
  {
    if Split(l, spec, dim).Ok? {
      var axis := Axis(dim, Dims(l));
      var sizes := SplitSizes(spec, ShapeOf(l)[axis]).value;
      var parts := Split(l, spec, dim).value;
      forall k | 0 <= k < |parts|
        ensures Proper(parts[k]) && Dense(parts[k]) == SplitTensor(Dense(l), axis, sizes)[k]
      {
        SelectAxisDense(l, axis, Chunks(sizes, 0)[k]);
      }
    }
  }

  /** With rank 1 an unnoticed row axis is split as usual. */
  lemma SplitRankOne(l: Factors, spec: SplitSize, dim: int)
    requires Proper(l) && Unnoticed(dim, Dims(l)) && Axis(dim, Dims(l)) == Dims(l) - 2 && Rank(l) == 1
    ensures Split(l, spec, dim) == Split(l, spec, -2)
  {
    hide Select, Chunks;
    var n := Dims(l);
    assert Axis(-2, n) == n - 2;
    if SplitSizes(spec, l.B.shape[n - 2]).Ok? {
      var sizes := SplitSizes(spec, l.B.shape[n - 2]).value;
      assert ShapeOf(l)[n - 2] == l.B.shape[n - 2];
      assert Split(l, spec, dim).value == Split(l, spec, -2).value;
    }
  }

  lemma FirstCut(dim: nat, size: nat)
    requires size > 0
    ensures |Cut(dim, size)| > 0 && Cut(dim, size)[0] == if dim <= size then dim else size
    ensures |Cut(dim, size)| == 1 <==> dim <= size
  {
    if dim > size {
      FirstCut(dim - size, size);
    }
  }

  lemma FirstChunk(sizes: seq<nat>)
    requires sizes != []
    ensures Chunks(sizes, 0)[0] == Span(0, sizes[0])
  {
  }

  /** The only part that is left of an unnoticed split. */
  function FirstPart(l: Factors, axis: nat, size: nat): Factors
    requires Proper(l) && axis < Dims(l)
  {
    var cut := if size <= ShapeOf(l)[axis] then size else ShapeOf(l)[axis];
    SelectAxis(l, axis, Span(0, cut))
  }

  /** Rows of B against the rank of A. */
  lemma SplitBothRows(l: Factors, size: nat)
    requires Proper(l) && size > 0 && Rank(l) != 1
    ensures var r := SplitBoth(l, Every(size), Dims(l) - 2);
            && (r.Ok? <==> size >= Rank(l))
            && (r.Ok? ==> r.value == [FirstPart(l, Dims(l) - 2, size)])
  {
    hide Select, Chunks;
    var n := Dims(l);
    var rows, rank := l.B.shape[n - 2], Rank(l);
    FirstCut(rows, size);
    FirstCut(rank, size);
    FirstChunk(Cut(rows, size));
    FirstChunk(Cut(rank, size));
    var as', bs := SplitTensor(l.A, n - 2, Cut(rank, size)), SplitTensor(l.B, n - 2, Cut(rows, size));
    assert as'[0].shape[n - 2] == Cut(rank, size)[0] && bs[0].shape[n - 1] == rank;
    if size >= rank {
      SelectAll(l.A, n - 2, Span(0, rank));
      assert as' == [l.A] && bs[0] == Select(l.B, n - 2, Span(0, Cut(rows, size)[0]));
    }
  }

  /** The rank of B against the columns of A. */
  lemma SplitBothCols(l: Factors, size: nat)
    requires Proper(l) && size > 0
    ensures var r := SplitBoth(l, Every(size), Dims(l) - 1);
            && (r.Ok? <==> size >= Rank(l))
            && (r.Ok? ==> r.value == [FirstPart(l, Dims(l) - 1, size)])
  {
    hide Select, Chunks;
    var n := Dims(l);
    var cols, rank := l.A.shape[n - 1], Rank(l);
    FirstCut(cols, size);
    FirstCut(rank, size);
    FirstChunk(Cut(cols, size));
    FirstChunk(Cut(rank, size));
    var as', bs := SplitTensor(l.A, n - 1, Cut(cols, size)), SplitTensor(l.B, n - 1, Cut(rank, size));
    assert bs[0].shape[n - 1] == Cut(rank, size)[0] && as'[0].shape[n - 2] == rank;
    if cols == 1 {
      SelectAll(l.A, n - 1, Span(0, cols));
    }
    if size >= rank {
      SelectAll(l.B, n - 1, Span(0, rank));
      assert bs == [l.B] && as'[0] == Select(l.A, n - 1, Span(0, Cut(cols, size)[0]));
    }
  }

  /**
   Otherwise an unnoticed split is accepted exactly if the chunks are no shorter than the rank, and then only its first
   part is left; it is the split asked for exactly if there is no other part.
   */
  lemma SplitUnnoticed(l: Factors, size: nat, dim: int)
    requires Proper(l) && size > 0 && Unnoticed(dim, Dims(l))
    requires !(Axis(dim, Dims(l)) == Dims(l) - 2 && Rank(l) == 1)
    ensures var axis := Axis(dim, Dims(l));
            var r := Split(l, Every(size), dim);
            && (r.Ok? <==> size >= Rank(l))
            && (r.Ok? ==> r.value == [FirstPart(l, axis, size)] && Split(l, Every(size), axis).Ok?
                          && (r == Split(l, Every(size), axis) <==> ShapeOf(l)[axis] <= size))
  {
    hide SplitBoth, SplitSizes, FirstPart, SelectAxis, Chunks;
    var axis := Axis(dim, Dims(l));
    if axis == Dims(l) - 2 {
      SplitBothRows(l, size);
    } else {
      SplitBothCols(l, size);
    }
    OnePart(l, size, axis);
  }

  /** An axis split as usual is one part exactly if it is no longer than a chunk. */
  lemma OnePart(l: Factors, size: nat, axis: nat)
    requires Proper(l) && size > 0 && axis < Dims(l)
    ensures Split(l, Every(size), axis).Ok?
    ensures Split(l, Every(size), axis) == Ok([FirstPart(l, axis, size)]) <==> ShapeOf(l)[axis] <= size
  {
    hide SelectAxis, Chunks;
    var m := ShapeOf(l)[axis];
    FirstCut(m, size);
    FirstChunk(Cut(m, size));
    var parts := Split(l, Every(size), axis).value;
    if m <= size {
      assert |parts| == 1 && parts[0] == FirstPart(l, axis, size);
      assert parts == [FirstPart(l, axis, size)];
    }
  }

  // ----- Indexing with a tuple

  /** One entry of an index tuple: a full slice, an integer, or a slice by its positions. */
  datatype Item = Full | Single(i: int) | Slice(pos: seq<nat>)

  function Normal(i: int, size: nat): (n: nat)
    requires 0 <= i + size && i < size
    ensures n < size
  {
    if i < 0 then i + size else i
  }

  predicate ItemFits(item: Item, size: nat) {
    match item
    case Full => true
    case Single(i) => 0 <= i + size && i < size
    case Slice(pos) => Positions(pos, size) && forall i, j :: 0 <= i < j < |pos| ==> pos[i] < pos[j]
  }

  predicate ItemsFit(items: seq<Item>, shape: Shape) {
    |items| <= |shape| && forall k :: 0 <= k < |items| ==> ItemFits(items[k], shape[k])
  }

  function IndexOne(t: Tensor, axis: nat, item: Item): (t': Tensor)
    requires Valid(t) && axis < |t.shape| && ItemFits(item, t.shape[axis])
    ensures Valid(t') && |t'.shape| >= axis && t'.shape[..axis] == t.shape[..axis]
  {
    match item
    case Full => t
    case Single(i) => Pick(t, axis, Normal(i, t.shape[axis]))
    case Slice(pos) => Select(t, axis, pos)
  }

  /** Index the first axes of a tensor; the last of them first, so that the places of the others hold. */
  function IndexLead(t: Tensor, items: seq<Item>): (t': Tensor)
    requires Valid(t) && ItemsFit(items, t.shape)
    ensures Valid(t')
    decreases |items|
  {
    if items == [] then t
    else
      var k := |items| - 1;
      var t1 := IndexOne(t, k, items[k]);
      assert forall j :: 0 <= j < k ==> t1.shape[..k][j] == t.shape[..k][j];
      IndexLead(t1, items[..k])
  }

  /** What the code makes of a leading item for A: integers wrap to A's size, slices become full. */
  function ItemForA(item: Item, size: nat): (a: Item)
    requires item.Single? ==> size > 0
    ensures ItemFits(a, size)
  {
    if item.Single? then Single(item.i % size) else Full
  }

  function ItemsForA(items: seq<Item>, shape: Shape): (as': seq<Item>)
    requires |items| <= |shape| && forall k :: 0 <= k < |items| && items[k].Single? ==> shape[k] > 0
    ensures |as'| == |items| && ItemsFit(as', shape)
  {
    seq(|items|, k requires 0 <= k < |items| => ItemForA(items[k], shape[k]))
  }

  lemma SinglesFitA(l: Factors, items: seq<Item>)
    requires Proper(l) && |items| <= Dims(l) - 2 && ItemsFit(items, l.B.shape)
    ensures forall k :: 0 <= k < |items| && items[k].Single? ==> l.A.shape[k] > 0
  {
    forall k | 0 <= k < |items| && items[k].Single?
      ensures l.A.shape[k] > 0
    {
      assert ItemFits(items[k], l.B.shape[k]);
    }
  }

  /** The two factors after indexing their leading axes. */
  function IndexFactors(l: Factors, items: seq<Item>): Factors
    requires Proper(l) && |items| <= Dims(l) - 2 && ItemsFit(items, l.B.shape)
  {
    SinglesFitA(l, items);
    Factors(IndexLead(l.A, ItemsForA(items, l.A.shape)), IndexLead(l.B, items))
  }

  /** Slices of leading axes are safe where A is broadcast, and where they keep everything. */
  predicate Safe(item: Item, a: nat, b: nat) {
    item.Slice? ==> a == 1 || |item.pos| == b
  }

  predicate AllSafe(l: Factors, items: seq<Item>)
    requires Proper(l) && |items| <= Dims(l) - 2
  {
    forall k :: 0 <= k < |items| ==> Safe(items[k], l.A.shape[k], l.B.shape[k])
  }

  lemma {:induction false} FullSelection(pos: seq<nat>, size: nat)
    requires ItemFits(Slice(pos), size) && |pos| == size
    ensures pos == Span(0, size)
  {
    forall i | 0 <= i < size
      ensures pos[i] == i
    {
      AtLeast(pos, i);
      AtMost(pos, size, i);
    }
  }

  lemma {:induction false} AtLeast(pos: seq<nat>, i: nat)
    requires i < |pos| && forall i, j :: 0 <= i < j < |pos| ==> pos[i] < pos[j]
    ensures pos[i] >= i
  {
    if i > 0 {
      AtLeast(pos, i - 1);
    }
  }

  lemma {:induction false} AtMost(pos: seq<nat>, size: nat, i: nat)
    requires i < |pos| == size && ItemFits(Slice(pos), size)
    ensures pos[i] <= i
    decreases size - i
  {
    if i + 1 < size {
      AtMost(pos, size, i + 1);
    }
  }

  /** Selecting every position changes nothing. */
  lemma SelectAll(t: Tensor, axis: nat, pos: seq<nat>)
    requires Valid(t) && axis < |t.shape| && pos == Span(0, t.shape[axis])
    ensures Select(t, axis, pos) == t
  {
    assert t.shape[axis := |pos|] == t.shape;
    forall idx | InShape(idx, t.shape)
      ensures At(Select(t, axis, pos), idx) == At(t, idx)
    {
      SelectAt(t, axis, pos, idx);
      assert SelectIndex(axis, pos, idx) == idx;
    }
    SameEntries(Select(t, axis, pos), t);
  }

  /** One safe item is one step on the factors, and on the product. */
  function StepFactors(l: Factors, k: nat, item: Item): (l': Factors)
    requires Proper(l) && k < Dims(l) - 2 && ItemFits(item, l.B.shape[k])
    ensures Proper(l')
  {
    match item
    case Full => l
    case Single(i) => PickLead(l, k, Normal(i, l.B.shape[k]))
    case Slice(pos) => SelectLead(l, k, pos)
  }

  lemma ModOne(i: int)
    ensures i % 1 == 0
  {
  }

  lemma ModNormal(i: int, b: nat)
    requires 0 <= i + b && i < b
    ensures i % b == Normal(i, b)
  {
  }

  lemma Wraps(i: int, a: nat, b: nat)
    requires ItemFits(Single(i), b) && (a == 1 || a == b)
    ensures a > 0 && ItemForA(Single(i), a) == Single(if a == 1 then 0 else Normal(i, b))
  {
    if a == 1 {
      ModOne(i);
    } else {
      ModNormal(i, b);
    }
  }

  lemma StepIsCode(l: Factors, k: nat, item: Item)
    requires Proper(l) && k < Dims(l) - 2 && ItemFits(item, l.B.shape[k]) && Safe(item, l.A.shape[k], l.B.shape[k])
    ensures item.Single? ==> l.A.shape[k] > 0
    ensures StepFactors(l, k, item)
         == Factors(IndexOne(l.A, k, ItemForA(item, l.A.shape[k])), IndexOne(l.B, k, item))
    ensures Dense(StepFactors(l, k, item)) == IndexOne(Dense(l), k, item)
  {
    match item
    case Full =>
    case Single(i) =>
      SingleIsCode(l, k, i);
    case Slice(pos) =>
      SelectLeadDense(l, k, pos);
      if l.A.shape[k] != 1 {
        FullSelection(pos, l.B.shape[k]);
        SelectAll(l.A, k, pos);
      }
  }

  lemma SingleIsCode(l: Factors, k: nat, i: int)
    requires Proper(l) && k < Dims(l) - 2 && ItemFits(Single(i), l.B.shape[k])
    ensures l.A.shape[k] > 0
    ensures StepFactors(l, k, Single(i))
         == Factors(IndexOne(l.A, k, ItemForA(Single(i), l.A.shape[k])), IndexOne(l.B, k, Single(i)))
    ensures Dense(StepFactors(l, k, Single(i))) == IndexOne(Dense(l), k, Single(i))
  {
    Wraps(i, l.A.shape[k], l.B.shape[k]);
    PickLeadDense(l, k, Normal(i, l.B.shape[k]));
  }

  /** On safe items, indexing the factors' leading axes indexes the product's. */
  lemma {:induction false} IndexFactorsDense(l: Factors, items: seq<Item>)
    requires Proper(l) && |items| <= Dims(l) - 2 && ItemsFit(items, l.B.shape) && AllSafe(l, items)
    ensures ItemsFit(items, ShapeOf(l))
    ensures Proper(IndexFactors(l, items))
    ensures Dense(IndexFactors(l, items)) == IndexLead(Dense(l), items)
    decreases |items|
  {
    FitsProduct(l, items);
    if items != [] {
      var k := |items| - 1;
      var l1 := StepFactors(l, k, items[k]);
      StepKeepsLower(l, k, items[k], items[..k]);
      StepIsCode(l, k, items[k]);
      IndexFactorsDense(l1, items[..k]);
      IndexFactorsStep(l, items);
    }
  }

  lemma FitsProduct(l: Factors, items: seq<Item>)
    requires Proper(l) && |items| <= Dims(l) - 2 && ItemsFit(items, l.B.shape)
    ensures ItemsFit(items, ShapeOf(l))
  {
    forall k | 0 <= k < |items|
      ensures ItemFits(items[k], ShapeOf(l)[k])
    {
      assert ItemFits(items[k], l.B.shape[k]);
    }
  }

  /** A step at axis k leaves the axes before it alone. */
  lemma StepKeepsLower(l: Factors, k: nat, item: Item, items: seq<Item>)
    requires Proper(l) && k < Dims(l) - 2 && ItemFits(item, l.B.shape[k]) && Safe(item, l.A.shape[k], l.B.shape[k])
    requires |items| == k && ItemsFit(items, l.B.shape) && AllSafe(l, items)
    ensures var l1 := StepFactors(l, k, item);
            && Dims(l1) >= k + 2 && l1.A.shape[..k] == l.A.shape[..k] && l1.B.shape[..k] == l.B.shape[..k]
            && ItemsFit(items, l1.B.shape) && AllSafe(l1, items)
  {
    StepIsCode(l, k, item);
    var l1 := StepFactors(l, k, item);
    assert Dims(l1) == |ShapeOf(l1)| && |ShapeOf(l1)| >= Dims(l) - 1;
    forall j | 0 <= j < k
      ensures ItemFits(items[j], l1.B.shape[j]) && Safe(items[j], l1.A.shape[j], l1.B.shape[j])
    {
      assert l1.A.shape[..k][j] == l.A.shape[..k][j] && l1.B.shape[..k][j] == l.B.shape[..k][j];
    }
  }

  lemma IndexFactorsStep(l: Factors, items: seq<Item>)
    requires Proper(l) && 0 < |items| <= Dims(l) - 2 && ItemsFit(items, l.B.shape) && AllSafe(l, items)
    ensures var k := |items| - 1;
            var l1 := StepFactors(l, k, items[k]);
            && k <= Dims(l1) - 2 && ItemsFit(items[..k], l1.B.shape)
            && IndexFactors(l, items) == IndexFactors(l1, items[..k])
  {
    hide Ravel, Prod, At, Dense, IndexOne, PickLead, SelectLead, StepFactors, Safe;
    var k := |items| - 1;
    var l1 := StepFactors(l, k, items[k]);
    StepIsCode(l, k, items[k]);
    StepKeepsLower(l, k, items[k], items[..k]);
    SinglesFitA(l, items);
    SinglesFitA(l1, items[..k]);
    var a := ItemsForA(items, l.A.shape);
    assert a[k] == ItemForA(items[k], l.A.shape[k]);
    assert a[..k] == ItemsForA(items[..k], l1.A.shape) by {
      forall j | 0 <= j < k
        ensures a[j] == ItemsForA(items[..k], l1.A.shape)[j]
      {
        assert l1.A.shape[..k][j] == l.A.shape[..k][j];
      }
    }
  }

  // ----- When slices of leading axes are right

  function Piece(size: nat, item: Item): Shape {
    match item
    case Full => [size]
    case Single(_) => []
    case Slice(pos) => [|pos|]
  }

  function LeadShape(shape: Shape, items: seq<Item>): Shape
    requires |shape| == |items|
  {
    if items == [] then []
    else LeadShape(shape[..|items| - 1], items[..|items| - 1]) + Piece(shape[|items| - 1], items[|items| - 1])
  }

  lemma IndexOneShape(t: Tensor, axis: nat, item: Item)
    requires Valid(t) && axis < |t.shape| && ItemFits(item, t.shape[axis])
    ensures IndexOne(t, axis, item).shape == t.shape[..axis] + Piece(t.shape[axis], item) + t.shape[axis + 1..]
  {
  }

  lemma LeadShapeSnoc(shape: Shape, items: seq<Item>)
    requires 0 < |items| <= |shape|
    ensures var k := |items| - 1;
            LeadShape(shape[..k + 1], items) == LeadShape(shape[..k], items[..k]) + Piece(shape[k], items[k])
  {
    var k := |items| - 1;
    assert shape[..k + 1][..k] == shape[..k];
  }

  lemma Spliced(a: Shape, p: Shape, b: Shape)
    ensures (a + p + b)[..|a|] == a && (a + p + b)[|a|..] == p + b
  {
  }

  lemma {:induction false} IndexLeadShape(t: Tensor, items: seq<Item>)
    requires Valid(t) && ItemsFit(items, t.shape)
    ensures IndexLead(t, items).shape == LeadShape(t.shape[..|items|], items) + t.shape[|items|..]
    decreases |items|
  {
    if items != [] {
      var k := |items| - 1;
      var t1 := IndexOne(t, k, items[k]);
      var p, tail := Piece(t.shape[k], items[k]), t.shape[k + 1..];
      IndexOneShape(t, k, items[k]);
      Spliced(t.shape[..k], p, tail);
      assert ItemsFit(items[..k], t1.shape) by {
        forall j | 0 <= j < k
          ensures ItemFits(items[..k][j], t1.shape[j])
        {
          assert t1.shape[..k][j] == t.shape[..k][j];
        }
      }
      IndexLeadShape(t1, items[..k]);
      LeadShapeSnoc(t.shape, items);
      Associate(LeadShape(t.shape[..k], items[..k]), p, tail);
    }
  }

  lemma Associate(a: Shape, b: Shape, c: Shape)
    ensures a + (b + c) == (a + b) + c
  {
  }

  predicate Pointwise(a: Shape, b: Shape) {
    |a| == |b| && forall i :: 0 <= i < |a| ==> a[i] == 1 || a[i] == b[i]
  }

  lemma PointwiseSnoc(a: Shape, b: Shape, x: nat, y: nat)
    requires |a| == |b|
    ensures Pointwise(a + [x], b + [y]) <==> Pointwise(a, b) && (x == 1 || x == y)
  {
    if Pointwise(a + [x], b + [y]) {
      forall i | 0 <= i < |a|
        ensures a[i] == 1 || a[i] == b[i]
      {
        assert (a + [x])[i] == 1 || (a + [x])[i] == (b + [y])[i];
      }
      assert (a + [x])[|a|] == 1 || (a + [x])[|a|] == (b + [y])[|a|];
    }
  }

  predicate SafeAt(a: Shape, b: Shape, items: seq<Item>)
    requires |a| == |b| == |items|
  {
    forall k :: 0 <= k < |items| ==> Safe(items[k], a[k], b[k])
  }

  lemma SafeSnoc(a: Shape, b: Shape, items: seq<Item>)
    requires |a| == |b| == |items| > 0
    ensures var k := |items| - 1;
            SafeAt(a, b, items) <==> SafeAt(a[..k], b[..k], items[..k]) && Safe(items[k], a[k], b[k])
  {
    var k := |items| - 1;
    if SafeAt(a[..k], b[..k], items[..k]) && Safe(items[k], a[k], b[k]) {
      forall j | 0 <= j < |items|
        ensures Safe(items[j], a[j], b[j])
      {
        if j < k {
          assert Safe(items[..k][j], a[..k][j], b[..k][j]);
        }
      }
    }
  }

  lemma ItemsForAFront(items: seq<Item>, a: Shape)
    requires |items| == |a| > 0 && forall k :: 0 <= k < |items| && items[k].Single? ==> a[k] > 0
    ensures var k := |items| - 1;
            ItemsForA(items, a)[..k] == ItemsForA(items[..k], a[..k])
            && ItemsForA(items, a)[k] == ItemForA(items[k], a[k])
  {
  }

  /** One more item keeps the shapes apart or together. */
  lemma LeadShapesStep(x: Shape, y: Shape, a: nat, b: nat, item: Item)
    requires |x| == |y| && (a == 1 || a == b) && (item.Single? ==> a > 0)
    ensures |x + Piece(a, ItemForA(item, a))| == |y + Piece(b, item)|
    ensures Pointwise(x + Piece(a, ItemForA(item, a)), y + Piece(b, item)) <==> Pointwise(x, y) && Safe(item, a, b)
  {
    match item
    case Full => PointwiseSnoc(x, y, a, b);
    case Single(i) => assert x + [] == x && y + [] == y;
    case Slice(pos) => PointwiseSnoc(x, y, a, |pos|);
  }

  lemma LeadShapeFront(shape: Shape, items: seq<Item>)
    requires |shape| == |items| > 0
    ensures LeadShape(shape, items) == LeadShape(shape[..|items| - 1], items[..|items| - 1]) + Piece(shape[|items| - 1], items[|items| - 1])
  {
  }

  lemma {:induction false} LeadShapesBroadcast(a: Shape, b: Shape, items: seq<Item>)
    requires Pointwise(a, b) && |items| == |a|
    requires forall k :: 0 <= k < |items| && items[k].Single? ==> a[k] > 0
    ensures |LeadShape(a, ItemsForA(items, a))| == |LeadShape(b, items)|
    ensures Pointwise(LeadShape(a, ItemsForA(items, a)), LeadShape(b, items)) <==> SafeAt(a, b, items)
    decreases |items|
  {
    if items != [] {
      PointwiseFront(a, b);
      hide SafeAt, Pointwise, ItemsForA, LeadShape, Piece, ItemForA, Safe;
      var k := |items| - 1;
      ItemsForAFront(items, a);
      SafeSnoc(a, b, items);
      LeadShapeFront(a, ItemsForA(items, a));
      LeadShapeFront(b, items);
      LeadShapesBroadcast(a[..k], b[..k], items[..k]);
      LeadShapesStep(LeadShape(a[..k], ItemsForA(items[..k], a[..k])), LeadShape(b[..k], items[..k]), a[k], b[k], items[k]);
    } else {
      assert LeadShape(a, ItemsForA(items, a)) == [] && LeadShape(b, items) == [];
    }
  }

  lemma PointwiseFront(a: Shape, b: Shape)
    requires Pointwise(a, b) && a != []
    ensures |a| == |b| && (a[|a| - 1] == 1 || a[|a| - 1] == b[|a| - 1]) && Pointwise(a[..|a| - 1], b[..|a| - 1])
  {
  }

  /** Indexing with a tuple: items for the leading axes, positions for the rows and for the columns. */
  function GetItem(l: Factors, items: seq<Item>, rows: seq<nat>, cols: seq<nat>): Factors
    requires Proper(l) && |items| == Dims(l) - 2 && ItemsFit(items, l.B.shape)
    requires Positions(rows, l.B.shape[Dims(l) - 2]) && Positions(cols, l.A.shape[Dims(l) - 1])
  {
    var l1 := SelectRows(SelectCols(l, cols), rows);
    assert ItemsFit(items, l1.B.shape);
    IndexFactors(l1, items)
  }

  /** The same on the product. */
  function GetItemTensor(t: Tensor, items: seq<Item>, rows: seq<nat>, cols: seq<nat>): Tensor
    requires Valid(t) && |items| + 2 == |t.shape| && ItemsFit(items, t.shape)
    requires Positions(rows, t.shape[|items|]) && Positions(cols, t.shape[|items| + 1])
  {
    var t1 := Select(Select(t, |items| + 1, cols), |items|, rows);
    assert ItemsFit(items, t1.shape);
    IndexLead(t1, items)
  }

  /**
   Indexing with a tuple gives factors that go together exactly if every slice of a leading axis
   either meets a broadcast axis of A or keeps the whole axis; and then they stand for the indexed product.
   */
  lemma GetItemMeaning(l: Factors, items: seq<Item>, rows: seq<nat>, cols: seq<nat>)
    requires Proper(l) && |items| == Dims(l) - 2 && ItemsFit(items, l.B.shape)
    requires Positions(rows, l.B.shape[Dims(l) - 2]) && Positions(cols, l.A.shape[Dims(l) - 1])
    ensures Proper(GetItem(l, items, rows, cols)) <==> AllSafe(l, items)
    ensures ItemsFit(items, ShapeOf(l))
    ensures AllSafe(l, items) ==>
              Dense(GetItem(l, items, rows, cols)) == GetItemTensor(Dense(l), items, rows, cols)
  {
    var l0 := SelectCols(l, cols);
    var l1 := SelectRows(l0, rows);
    FitsProduct(l, items);
    SelectColsDense(l, cols);
    SelectRowsDense(l0, rows);
    assert ItemsFit(items, l1.B.shape);
    assert AllSafe(l1, items) <==> AllSafe(l, items);
    if AllSafe(l1, items) {
      IndexFactorsDense(l1, items);
    }
    ProperMeansSafe(l1, items);
  }

  lemma ProperMeansSafe(l: Factors, items: seq<Item>)
    requires Proper(l) && |items| == Dims(l) - 2 && ItemsFit(items, l.B.shape)
    ensures Proper(IndexFactors(l, items)) ==> AllSafe(l, items)
  {
    var m := |items|;
    SinglesFitA(l, items);
    var as' := ItemsForA(items, l.A.shape);
    assert as' == ItemsForA(items, l.A.shape[..m]);
    IndexLeadShape(l.A, as');
    IndexLeadShape(l.B, items);
    LeadShapesBroadcast(l.A.shape[..m], l.B.shape[..m], items);
    var x, y := LeadShape(l.A.shape[..m], as'), LeadShape(l.B.shape[..m], items);
    if Proper(IndexFactors(l, items)) {
      assert Broadcasts(x + l.A.shape[m..], y + l.B.shape[m..]);
      forall i | 0 <= i < |x|
        ensures x[i] == 1 || x[i] == y[i]
      {
        assert (x + l.A.shape[m..])[i] == 1 || (x + l.A.shape[m..])[i] == (y + l.B.shape[m..])[i];
      }
    }
  }

  // ----- An ellipsis in the tuple

  function Fulls(n: nat): (items: seq<Item>)
    ensures |items| == n && forall i :: 0 <= i < n ==> items[i] == Full
  {
    seq(n, _ => Full)
  }

  /**
   The tuple (before, ..., after) on an n-d weight as the code expands it: one full slice for each of the
   other entries, then full slices up to n. A last ellipsis is simply dropped first.
   */
  function ExpandDots(before: seq<Item>, after: seq<Item>, n: nat): seq<Item> {
    var items := if after == [] then before else before + Fulls(|before| + |after|) + after;
    if |items| < n then items + Fulls(n - |items|) else items
  }

  /** What an ellipsis stands for: as many full slices as the other entries leave room for. */
  function MeantByDots(before: seq<Item>, after: seq<Item>, n: nat): seq<Item>
    requires |before| + |after| <= n
  {
    before + Fulls(n - |before| - |after|) + after
  }

  lemma {:induction false} ShiftedIntoFulls(after: seq<Item>, d: nat, i: nat)
    requires d > 0 && after + Fulls(d) == Fulls(d) + after && i < |after|
    ensures after[i] == Full
  {
    assert (after + Fulls(d))[i] == after[i];
    if i >= d {
      assert (Fulls(d) + after)[i] == after[i - d];
      ShiftedIntoFulls(after, d, i - d);
    } else {
      assert (Fulls(d) + after)[i] == Full;
    }
  }

  /**
   The expansion is the one meant exactly if nothing but full slices follows the ellipsis, with room for the
   slices put in, or the tuple has half as many other entries as the weight has axes.
   */
  lemma EllipsisExpansion(before: seq<Item>, after: seq<Item>, n: nat)
    requires 0 < |before| + |after| <= n
    ensures ExpandDots(before, after, n) == MeantByDots(before, after, n)
       <==> || after == []
            || n == 2 * (|before| + |after|)
            || (n > 2 * (|before| + |after|) && forall i :: 0 <= i < |after| ==> after[i] == Full)
  {
    var k := |before| + |after|;
    if after != [] && 2 * k < n {
      var d := n - 2 * k;
      var code, meant := ExpandDots(before, after, n), MeantByDots(before, after, n);
      assert code == before + Fulls(k) + (after + Fulls(d));
      assert meant == before + Fulls(k) + (Fulls(d) + after);
      var head := before + Fulls(k);
      assert code[|head|..] == after + Fulls(d) && meant[|head|..] == Fulls(d) + after;
      if code == meant {
        forall i | 0 <= i < |after|
          ensures after[i] == Full
        {
          ShiftedIntoFulls(after, d, i);
        }
      }
    }
  }
}
