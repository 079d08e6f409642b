/** Indexing a factored weight without a tuple, with integers in the last places of one, and two ways it goes wrong. */
module Indexing {
  import opened Wrappers
  import opened Tensors
  import opened LowRank
  import opened Selecting

  // ----- One integer

  predicate InRange(i: int, size: nat) {
    0 <= i + size && i < size
  }

  /** weight[i]: both factors lose their first axis. */
  function IndexPlain(l: Factors, i: int): Result<Factors, Error>
    requires Proper(l)
  {
    if Dims(l) == 2 then Err(NotImplemented)
    else if !InRange(i, l.A.shape[0]) || !InRange(i, l.B.shape[0]) then Err(IndexOutOfRange)
    else Ok(Factors(Pick(l.A, 0, Normal(i, l.A.shape[0])), Pick(l.B, 0, Normal(i, l.B.shape[0]))))
  }

  /**
   An n-d weight gives its part i exactly if i is in range and, where A is broadcast on the first axis, i is 0 or -1;
   everything else is refused.
   */
  lemma IndexPlainMeaning(l: Factors, i: int)
    requires Proper(l)
    ensures IndexPlain(l, i).Ok? <==>
            Dims(l) > 2 && InRange(i, l.B.shape[0]) && (l.A.shape[0] == l.B.shape[0] || i == 0 || i == -1)
    ensures IndexPlain(l, i).Ok? ==>
              && Proper(IndexPlain(l, i).value)
              && Dense(IndexPlain(l, i).value) == Pick(Dense(l), 0, Normal(i, l.B.shape[0]))
  {
    hide Dense, Pick;
    if IndexPlain(l, i).Ok? {
      PickLeadDense(l, 0, Normal(i, l.B.shape[0]));
    }
  }

  // ----- One slice

  datatype Range = Range(start: Option<int>, stop: Option<int>, step: nat)

  /** A bound counted from the end if negative, and kept within the axis. */
  function Bound(x: Option<int>, default: nat, size: nat): nat {
    match x
    case None => default
    case Some(v) => if v >= size then size else if v >= 0 then v else if v + size >= 0 then v + size else 0
  }

  function From(lo: nat, hi: nat, step: nat): (pos: seq<nat>)
    requires step > 0
    ensures Positions(pos, hi) && (pos == [] <==> lo >= hi)
    decreases if hi >= lo then hi - lo else 0
  {
    if lo >= hi then [] else [lo] + From(lo + step, hi, step)
  }

  /** The positions a slice keeps of an axis. */
  function Kept(r: Range, size: nat): (pos: seq<nat>)
    requires r.step > 0
    ensures Positions(pos, size)
  {
    var hi := Bound(r.stop, size, size);
    var pos := From(Bound(r.start, 0, size), hi, r.step);
    assert forall i :: 0 <= i < |pos| ==> pos[i] < hi <= size;
    pos
  }

  /** weight[start:stop:step]: both factors are sliced along the first axis, except for a matrix. */
  function SlicePlain(l: Factors, r: Range): Factors
    requires Proper(l) && r.step > 0
  {
    if Dims(l) == 2 then SelectRows(l, Kept(r, l.B.shape[0]))
    else Factors(Select(l.A, 0, Kept(r, l.A.shape[0])), Select(l.B, 0, Kept(r, l.B.shape[0])))
  }

  lemma KeptOne(r: Range)
    requires r.step > 0
    ensures Kept(r, 1) == [] || Kept(r, 1) == [0]
  {
    var pos := Kept(r, 1);
    var hi := Bound(r.stop, 1, 1);
    var lo := Bound(r.start, 0, 1);
    if lo < hi {
      assert From(lo + r.step, hi, r.step) == [];
    }
  }

  /** The factors go together exactly if A is not emptied alone. */
  predicate KeepsTogether(l: Factors, r: Range)
    requires Proper(l) && r.step > 0
  {
    Dims(l) == 2 || l.A.shape[0] == l.B.shape[0] || Kept(r, 1) == [0] || Kept(r, l.B.shape[0]) == []
  }

  /**
   A slice of the first axis gives factors that go together exactly if A has that axis, or the slice keeps position 0
   of one, or keeps nothing; and then they stand for the sliced product.
   */
  lemma SlicePlainMeaning(l: Factors, r: Range)
    requires Proper(l) && r.step > 0
    ensures Proper(SlicePlain(l, r)) <==> KeepsTogether(l, r)
    ensures KeepsTogether(l, r) ==> Dense(SlicePlain(l, r)) == Select(Dense(l), 0, Kept(r, ShapeOf(l)[0]))
  {
    hide Dense, Select, Kept;
    if Dims(l) == 2 {
      SelectRowsDense(l, Kept(r, l.B.shape[0]));
    } else {
      SliceLeadMeaning(l, r);
    }
  }

  lemma SlicedProper(l: Factors, posA: seq<nat>, posB: seq<nat>)
    requires Proper(l) && Dims(l) > 2 && Positions(posA, l.A.shape[0]) && Positions(posB, l.B.shape[0])
    ensures Proper(Factors(Select(l.A, 0, posA), Select(l.B, 0, posB))) <==> |posA| == 1 || |posA| == |posB|
  {
    hide Select;
    var A, B := Select(l.A, 0, posA).shape, Select(l.B, 0, posB).shape;
    assert forall i :: 0 < i < Dims(l) ==> A[i] == l.A.shape[i] && B[i] == l.B.shape[i];
    assert A[0] == |posA| && B[0] == |posB|;
  }

  lemma SliceLeadMeaning(l: Factors, r: Range)
    requires Proper(l) && r.step > 0 && Dims(l) > 2
    ensures Proper(SlicePlain(l, r)) <==> KeepsTogether(l, r)
    ensures KeepsTogether(l, r) ==> Dense(SlicePlain(l, r)) == Select(Dense(l), 0, Kept(r, ShapeOf(l)[0]))
  {
    hide Dense, Select, Kept, Proper;
    BroadcastFirst(l);
    var posA, posB := Kept(r, l.A.shape[0]), Kept(r, l.B.shape[0]);
    KeptOne(r);
    SlicedProper(l, posA, posB);
    if KeepsTogether(l, r) {
      SliceLeadDense(l, r, posA, posB);
    }
  }

  lemma BroadcastFirst(l: Factors)
    requires Proper(l) && Dims(l) > 2
    ensures |l.B.shape| == Dims(l) && ShapeOf(l)[0] == l.B.shape[0]
    ensures Valid(l.A) && Valid(l.B) && (l.A.shape[0] == 1 || l.A.shape[0] == l.B.shape[0])
  {
  }

  lemma SliceLeadDense(l: Factors, r: Range, posA: seq<nat>, posB: seq<nat>)
    requires Proper(l) && r.step > 0 && Dims(l) > 2
    requires Positions(posA, l.A.shape[0]) && Positions(posB, l.B.shape[0])
    requires l.A.shape[0] == 1 ==> posA == [] || posA == [0]
    requires (l.A.shape[0] == l.B.shape[0] && posA == posB) || (l.A.shape[0] == 1 && posA == [0]) || (posA == [] && posB == [])
    ensures var l' := Factors(Select(l.A, 0, posA), Select(l.B, 0, posB));
            Proper(l') && Dense(l') == Select(Dense(l), 0, posB)
  {
    hide Dense, Select;
    SlicedProper(l, posA, posB);
    if l.A.shape[0] == 1 && posA == [0] {
      assert Span(0, 1) == [0];
      SelectAll(l.A, 0, [0]);
      SelectLeadDense(l, 0, posB);
    } else if l.A.shape[0] == l.B.shape[0] && posA == posB && l.A.shape[0] != 1 {
      SelectLeadDense(l, 0, posB);
    } else {
      NothingLeft(l, Factors(Select(l.A, 0, posA), Select(l.B, 0, posB)), 0);
    }
  }

  lemma NoIndex(shape: Shape, axis: nat)
    requires axis < |shape| && shape[axis] == 0
    ensures forall idx :: !InShape(idx, shape)
  {
  }

  /** Products without entries are equal as soon as their shapes are. */
  lemma NothingLeft(l: Factors, l': Factors, axis: nat)
    requires Proper(l) && Proper(l') && axis < Dims(l)
    requires ShapeOf(l') == ShapeOf(l)[axis := 0]
    ensures Dense(l') == Select(Dense(l), axis, [])
  {
    hide Dense, Select, InShape, At;
    NoIndex(ShapeOf(l'), axis);
    SameEntries(Dense(l'), Select(Dense(l), axis, []));
  }

  // ----- Integers in the last two places of a tuple

  /** The leading axes indexed, the others as they are. */
  function AfterLead(t: Tensor, items: seq<Item>): (t': Tensor)
    requires Valid(t) && ItemsFit(items, t.shape)
    ensures Valid(t') && t'.shape == LeadShape(t.shape[..|items|], items) + t.shape[|items|..]
  {
    IndexLeadShape(t, items);
    IndexLead(t, items)
  }

  /** A place of a tuple: a slice, which keeps the axis whatever it keeps of it, or an integer. */
  datatype Last = Whole | Place(i: int)

  predicate LastFits(x: Last, size: nat) {
    x.Place? ==> InRange(x.i, size)
  }

  function PickLast(t: Tensor, axis: nat, x: Last): (t': Tensor)
    requires Valid(t) && axis < |t.shape| && LastFits(x, t.shape[axis])
    ensures Valid(t') && |t'.shape| == (if x.Place? then |t.shape| - 1 else |t.shape|) && t'.shape[..axis] == t.shape[..axis]
  {
    if x.Place? then Pick(t, axis, Normal(x.i, t.shape[axis])) else t
  }

  /** What the code builds of a tuple with integers for the rows, for the columns, or for both, and the constructor's checks. */
  function IndexLast(l: Factors, items: seq<Item>, row: Last, col: Last): Result<Factors, Error>
    requires Proper(l) && |items| == Dims(l) - 2 && ItemsFit(items, l.B.shape)
    requires LastFits(row, l.B.shape[Dims(l) - 2]) && LastFits(col, l.A.shape[Dims(l) - 1])
  {
    var n := Dims(l);
    var A, B := PickLast(l.A, n - 1, col), PickLast(l.B, n - 2, row);
    SinglesFitA(l, items);
    SameLead(l, A, B);
    Construct(AfterLead(A, ItemsForA(items, A.shape)), AfterLead(B, items))
  }

  lemma SameLead(l: Factors, A: Tensor, B: Tensor)
    requires Proper(l) && Dims(l) - 1 <= |A.shape| && Dims(l) - 1 <= |B.shape|
    requires A.shape[..Dims(l) - 2] == l.A.shape[..Dims(l) - 2] && B.shape[..Dims(l) - 2] == l.B.shape[..Dims(l) - 2]
    ensures forall k :: 0 <= k < Dims(l) - 2 ==> A.shape[k] == l.A.shape[k] && B.shape[k] == l.B.shape[k]
  {
    forall k | 0 <= k < Dims(l) - 2
      ensures A.shape[k] == l.A.shape[k] && B.shape[k] == l.B.shape[k]
    {
      assert A.shape[..Dims(l) - 2][k] == l.A.shape[..Dims(l) - 2][k];
      assert B.shape[..Dims(l) - 2][k] == l.B.shape[..Dims(l) - 2][k];
    }
  }

  function Construct(A: Tensor, B: Tensor): Result<Factors, Error> {
    if |A.shape| != |B.shape| then Err(AssertionFailed)
    else if |A.shape| < 2 then Err(IndexOutOfRange)
    else if A.shape[|A.shape| - 2] != B.shape[|B.shape| - 1] then Err(AssertionFailed)
    else Ok(Factors(A, B))
  }

  lemma LeadAlike(l: Factors, items: seq<Item>, A: Shape)
    requires Proper(l) && |items| == Dims(l) - 2 <= |A| && ItemsFit(items, l.B.shape)
    requires A[..|items|] == l.A.shape[..|items|]
    requires forall k :: 0 <= k < |items| && items[k].Single? ==> A[k] > 0
    ensures |LeadShape(A[..|items|], ItemsForA(items, A))| == |LeadShape(l.B.shape[..|items|], items)|
  {
    var a, b := l.A.shape[..|items|], l.B.shape[..|items|];
    assert forall k :: 0 <= k < |items| ==> a[k] == A[k];
    assert ItemsForA(items, A) == ItemsForA(items, a);
    LeadShapesBroadcast(a, b, items);
  }

  /**
   An integer in the last two places never gives the indexed product: one alone is refused, and two give, if the
   constructor accepts them at all, a weight with an axis too many.
   */
  lemma IntegersLast(l: Factors, items: seq<Item>, row: Last, col: Last)
    requires Proper(l) && |items| == Dims(l) - 2 && ItemsFit(items, l.B.shape)
    requires LastFits(row, l.B.shape[Dims(l) - 2]) && LastFits(col, l.A.shape[Dims(l) - 1])
    requires row.Place? || col.Place?
    ensures row.Place? != col.Place? ==> IndexLast(l, items, row, col) == Err(AssertionFailed)
    ensures row.Place? && col.Place? ==>
              var lead := LeadShape(l.B.shape[..Dims(l) - 2], items);
              && (lead == [] ==> IndexLast(l, items, row, col) == Err(IndexOutOfRange))
              && (IndexLast(l, items, row, col).Ok? ==> |IndexLast(l, items, row, col).value.B.shape| == |lead| + 1)
  {
    hide AfterLead, PickLast, LeadShape, ItemsForA, ItemsFit, Proper;
    var n := LastDims(l);
    var A, B := PickLast(l.A, n - 1, col), PickLast(l.B, n - 2, row);
    assert A.shape[..n - 2] == A.shape[..n - 1][..n - 2] && l.A.shape[..n - 1][..n - 2] == l.A.shape[..n - 2];
    SinglesFitA(l, items);
    SameLead(l, A, B);
    LeadAlike(l, items, A.shape);
  }

  lemma LastDims(l: Factors) returns (n: nat)
    requires Proper(l)
    ensures n == Dims(l) == |l.B.shape| >= 2 && Valid(l.A) && Valid(l.B)
  {
    n := Dims(l);
  }

  // ----- Two tuples that go wrong

  /** A slice of a leading axis that A has and the slice does not keep whole. */
  lemma SlicedLeadFails(l: Factors)
    requires Proper(l) && l.A.shape == [2, 1, 1] && l.B.shape == [2, 1, 1]
    ensures ItemsFit([Slice([0])], l.B.shape) && Positions([0], 1) && !Proper(GetItem(l, [Slice([0])], [0], [0]))
  {
    assert Positions([0], 1) && !Safe(Slice([0]), 2, 2);
    assert ItemFits(Slice([0]), 2);
    GetItemMeaning(l, [Slice([0])], [0], [0]);
  }

  /** weight[..., :1] on four axes slices the second axis, not the last. */
  lemma EllipsisMisplaced()
    ensures ExpandDots([], [Slice([0])], 4) == [Full, Slice([0]), Full, Full]
    ensures MeantByDots([], [Slice([0])], 4) == [Full, Full, Full, Slice([0])]
  {
  }
}
