/** Stacking and concatenating factored weights along a first axis. */
module Joining {
  import opened Wrappers
  import opened Tensors
  import opened LowRank
  import opened Selecting

  predicate AllValid(ts: seq<Tensor>) {
    forall k :: 0 <= k < |ts| ==> Valid(ts[k])
  }

  predicate AllProper(ls: seq<Factors>) {
    forall k :: 0 <= k < |ls| ==> Proper(ls[k])
  }

  function As(ls: seq<Factors>): (ts: seq<Tensor>)
    requires AllProper(ls)
    ensures |ts| == |ls| && AllValid(ts)
  {
    seq(|ls|, k requires 0 <= k < |ls| => ls[k].A)
  }

  function Bs(ls: seq<Factors>): (ts: seq<Tensor>)
    requires AllProper(ls)
    ensures |ts| == |ls| && AllValid(ts)
  {
    seq(|ls|, k requires 0 <= k < |ls| => ls[k].B)
  }

  function Denses(ls: seq<Factors>): (ts: seq<Tensor>)
    requires AllProper(ls)
    ensures |ts| == |ls| && AllValid(ts)
    ensures forall k :: 0 <= k < |ls| ==> ts[k] == Dense(ls[k])
  {
    seq(|ls|, k requires 0 <= k < |ls| => Dense(ls[k]))
  }

  /** Entry rest of tensor p, or nothing. */
  function EntryOf(ts: seq<Tensor>, p: nat, rest: Index): real
    requires AllValid(ts)
  {
    if p < |ts| && InShape(rest, ts[p].shape) then At(ts[p], rest) else 0.0
  }

  // ----- Stacking

  predicate SameShapes(ts: seq<Tensor>) {
    ts != [] && forall k :: 0 <= k < |ts| ==> ts[k].shape == ts[0].shape
  }

  /** torch.stack along a new first axis. */
  function StackTensors(ts: seq<Tensor>): (t: Tensor)
    requires AllValid(ts) && SameShapes(ts)
    ensures Valid(t) && t.shape == [|ts|] + ts[0].shape
  {
    Build([|ts|] + ts[0].shape, idx => if idx == [] then 0.0 else EntryOf(ts, idx[0], idx[1..]))
  }

  lemma StackAt(ts: seq<Tensor>, i: nat, rest: Index)
    requires AllValid(ts) && SameShapes(ts) && i < |ts| && InShape(rest, ts[0].shape)
    ensures InShape([i] + rest, StackTensors(ts).shape)
    ensures At(StackTensors(ts), [i] + rest) == At(ts[i], rest)
  {
    BuildAt([|ts|] + ts[0].shape, idx => if idx == [] then 0.0 else EntryOf(ts, idx[0], idx[1..]), [i] + rest);
    assert ([i] + rest)[1..] == rest;
  }

  function Stack(ls: seq<Factors>): Result<Factors, Error>
    requires AllProper(ls)
  {
    if SameShapes(As(ls)) && SameShapes(Bs(ls))
    then Ok(Factors(StackTensors(As(ls)), StackTensors(Bs(ls))))
    else Err(TorchError)
  }

  /** Weights of one shape and rank, with A broadcast alike, are stacked, and only those. */
  lemma StackAccepts(ls: seq<Factors>)
    requires AllProper(ls)
    ensures Stack(ls).Ok? <==>
            ls != [] && forall k :: 0 <= k < |ls| ==>
              ShapeOf(ls[k]) == ShapeOf(ls[0]) && Rank(ls[k]) == Rank(ls[0])
              && ls[k].A.shape[..Dims(ls[k]) - 2] == ls[0].A.shape[..Dims(ls[0]) - 2]
  {
    hide StackTensors;
    forall k | 0 <= k < |ls|
      ensures ls[k].A.shape == ls[0].A.shape && ls[k].B.shape == ls[0].B.shape <==>
              ShapeOf(ls[k]) == ShapeOf(ls[0]) && Rank(ls[k]) == Rank(ls[0])
              && ls[k].A.shape[..Dims(ls[k]) - 2] == ls[0].A.shape[..Dims(ls[0]) - 2]
    {
      SameParts(ls[k], ls[0]);
    }
    assert |As(ls)| == |Bs(ls)| == |ls|;
    assert forall k :: 0 <= k < |ls| ==> As(ls)[k].shape == ls[k].A.shape && Bs(ls)[k].shape == ls[k].B.shape;
  }

  lemma SameParts(l: Factors, l': Factors)
    requires Proper(l) && Proper(l')
    ensures l.A.shape == l'.A.shape && l.B.shape == l'.B.shape <==>
            ShapeOf(l) == ShapeOf(l') && Rank(l) == Rank(l') && l.A.shape[..Dims(l) - 2] == l'.A.shape[..Dims(l') - 2]
  {
    var n, n' := Dims(l), Dims(l');
    assert l.A.shape == l.A.shape[..n - 2] + [Rank(l), ShapeOf(l)[n - 1]];
    assert l'.A.shape == l'.A.shape[..n' - 2] + [Rank(l'), ShapeOf(l')[n' - 1]];
    assert l.B.shape == ShapeOf(l)[..n - 1] + [Rank(l)];
    assert l'.B.shape == ShapeOf(l')[..n' - 1] + [Rank(l')];
  }

  lemma StackProper(ls: seq<Factors>)
    requires AllProper(ls) && Stack(ls).Ok?
    ensures Proper(Stack(ls).value)
    ensures forall k :: 0 <= k < |ls| ==> ShapeOf(ls[k]) == ShapeOf(ls[0]) && Rank(ls[k]) == Rank(ls[0])
    ensures ShapeOf(Stack(ls).value) == [|ls|] + ShapeOf(ls[0]) && Rank(Stack(ls).value) == Rank(ls[0])
    ensures SameShapes(Denses(ls))
  {
    hide Ravel, Prod, At, StackTensors, Dense;
    var l' := Stack(ls).value;
    forall k | 0 <= k < |ls|
      ensures ls[k].A.shape == ls[0].A.shape && ls[k].B.shape == ls[0].B.shape
    {
      assert As(ls)[k].shape == As(ls)[0].shape && Bs(ls)[k].shape == Bs(ls)[0].shape;
    }
    assert l'.A.shape == [|ls|] + ls[0].A.shape && l'.B.shape == [|ls|] + ls[0].B.shape;
  }

  lemma IndexACons(shape: Shape, m: nat, i: nat, rest: Index, r: nat)
    requires 2 <= |rest| == |shape| && i < m
    ensures IndexA([m] + shape, [i] + rest, r) == [i] + IndexA(shape, rest, r)
  {
    var n := |rest|;
    assert ([i] + rest)[..n - 1] == [i] + rest[..n - 2];
    var x, y := Broadcast([i] + rest[..n - 2], [m] + shape), [i] + Broadcast(rest[..n - 2], shape);
    forall k | 0 <= k < n - 1
      ensures x[k] == y[k]
    {
    }
    assert x == y;
  }

  lemma IndexBCons(i: nat, rest: Index, r: nat)
    requires rest != []
    ensures IndexB([i] + rest, r) == [i] + IndexB(rest, r)
  {
    assert ([i] + rest)[..|rest|] == [i] + rest[..|rest| - 1];
  }

  lemma StackTerm(ls: seq<Factors>, i: nat, rest: Index, r: nat)
    requires AllProper(ls) && Stack(ls).Ok? && Proper(Stack(ls).value)
    requires i < |ls| && InShape(rest, ShapeOf(ls[i])) && r < Rank(ls[i])
    requires InShape([i] + rest, ShapeOf(Stack(ls).value)) && r < Rank(Stack(ls).value)
    ensures Term(Stack(ls).value, [i] + rest, r) == Term(ls[i], rest, r)
  {
    hide Ravel, Prod, At, Term, StackTensors;
    var l' := Stack(ls).value;
    assert As(ls)[i].shape == As(ls)[0].shape && Bs(ls)[i].shape == Bs(ls)[0].shape;
    IndicesInShape(ls[i], rest, r);
    IndexACons(ls[i].A.shape, |ls|, i, rest, r);
    IndexBCons(i, rest, r);
    StackAt(As(ls), i, IndexA(ls[i].A.shape, rest, r));
    StackAt(Bs(ls), i, IndexB(rest, r));
    TermsMeet(l', [i] + rest, ls[i], rest, r);
  }

  lemma StackEntryAt(ls: seq<Factors>, i: nat, rest: Index)
    requires AllProper(ls) && Stack(ls).Ok?
    requires Proper(Stack(ls).value) && SameShapes(Denses(ls))
    requires i < |ls| && InShape(rest, ShapeOf(ls[i])) && Rank(Stack(ls).value) == Rank(ls[i])
    requires InShape([i] + rest, ShapeOf(Stack(ls).value)) && InShape([i] + rest, StackTensors(Denses(ls)).shape)
    ensures At(Dense(Stack(ls).value), [i] + rest) == At(StackTensors(Denses(ls)), [i] + rest)
  {
    hide Ravel, Prod, At, Term, StackTensors, Stack, Dense, Sum;
    var l' := Stack(ls).value;
    forall r | 0 <= r < Rank(ls[i])
      ensures Terms(l', [i] + rest)[r] == Terms(ls[i], rest)[r]
    {
      StackTerm(ls, i, rest, r);
    }
    assert Terms(l', [i] + rest) == Terms(ls[i], rest);
    DenseAt(l', [i] + rest);
    DenseAt(ls[i], rest);
    assert Denses(ls)[i].shape == Denses(ls)[0].shape;
    StackAt(Denses(ls), i, rest);
  }

  /** Stacked factors stand for the stacked products. */
  lemma StackMeaning(ls: seq<Factors>)
    requires AllProper(ls) && Stack(ls).Ok?
    ensures Proper(Stack(ls).value) && SameShapes(Denses(ls))
    ensures Dense(Stack(ls).value) == StackTensors(Denses(ls))
  {
    hide Ravel, Prod, At, StackTensors, Stack, Dense;
    var l' := Stack(ls).value;
    StackProper(ls);
    var s, t := Dense(l'), StackTensors(Denses(ls));
    forall idx | InShape(idx, s.shape)
      ensures At(s, idx) == At(t, idx)
    {
      assert idx == [idx[0]] + idx[1..];
      assert InShape(idx[1..], ShapeOf(ls[0]));
      StackEntryAt(ls, idx[0], idx[1..]);
    }
    SameEntries(s, t);
  }

  // ----- Concatenating along the first axis

  /** Which part position i falls into, and where in it. */
  function Locate(sizes: seq<nat>, i: nat): (at: (nat, nat))
    requires i < Total(sizes)
    ensures at.0 < |sizes| && at.1 < sizes[at.0]
  {
    if i < sizes[0] then (0, i)
    else
      var (p, o) := Locate(sizes[1..], i - sizes[0]);
      (p + 1, o)
  }

  function Firsts(ts: seq<Tensor>): (sizes: seq<nat>)
    ensures |sizes| == |ts|
    ensures forall k :: 0 <= k < |ts| && ts[k].shape != [] ==> sizes[k] == ts[k].shape[0]
  {
    seq(|ts|, k requires 0 <= k < |ts| => if ts[k].shape == [] then 0 else ts[k].shape[0])
  }

  /** Shapes that differ at most in the first axis. */
  predicate Joinable(ts: seq<Tensor>) {
    && ts != []
    && forall k :: 0 <= k < |ts| ==>
         |ts[k].shape| == |ts[0].shape| >= 1 && ts[k].shape[1..] == ts[0].shape[1..]
  }

  function JoinedEntry(ts: seq<Tensor>, idx: Index): real
    requires AllValid(ts)
  {
    if idx != [] && idx[0] < Total(Firsts(ts)) then
      var (p, o) := Locate(Firsts(ts), idx[0]);
      EntryOf(ts, p, [o] + idx[1..])
    else 0.0
  }

  /** torch.cat along the first axis. */
  function CatTensors(ts: seq<Tensor>): (t: Tensor)
    requires AllValid(ts) && Joinable(ts)
    ensures Valid(t) && t.shape == [Total(Firsts(ts))] + ts[0].shape[1..]
  {
    Build([Total(Firsts(ts))] + ts[0].shape[1..], idx => JoinedEntry(ts, idx))
  }

  lemma InShapeCons(i: nat, rest: Index, m: nat, shape: Shape)
    requires i < m && InShape(rest, shape)
    ensures InShape([i] + rest, [m] + shape)
  {
  }

  lemma CatAt(ts: seq<Tensor>, i: nat, rest: Index)
    requires AllValid(ts) && Joinable(ts) && i < Total(Firsts(ts)) && InShape(rest, ts[0].shape[1..])
    ensures var (p, o) := Locate(Firsts(ts), i);
            && InShape([i] + rest, CatTensors(ts).shape)
            && InShape([o] + rest, ts[p].shape)
            && At(CatTensors(ts), [i] + rest) == At(ts[p], [o] + rest)
  {
    hide Ravel, Prod, At, Locate, Total, CatTensors, InShape, Firsts;
    var (p, o) := Locate(Firsts(ts), i);
    var tail := ts[0].shape[1..];
    assert ts[p].shape[1..] == tail;
    assert ts[p].shape == [ts[p].shape[0]] + tail;
    InShapeCons(i, rest, Total(Firsts(ts)), tail);
    InShapeCons(o, rest, ts[p].shape[0], tail);
    assert ([i] + rest)[0] == i && ([i] + rest)[1..] == rest;
    CatIsBuilt(ts, [i] + rest);
  }

  lemma CatIsBuilt(ts: seq<Tensor>, idx: Index)
    requires AllValid(ts) && Joinable(ts) && InShape(idx, [Total(Firsts(ts))] + ts[0].shape[1..])
    ensures At(CatTensors(ts), idx) == JoinedEntry(ts, idx)
  {
    hide Ravel, Prod, At, Locate, Total;
    BuildAt([Total(Firsts(ts))] + ts[0].shape[1..], i => JoinedEntry(ts, i), idx);
  }

  function Cat(ls: seq<Factors>): Result<Factors, Error>
    requires AllProper(ls)
  {
    if ls == [] then Err(IndexOutOfRange)
    else if Dims(ls[0]) > 2 then
      if Joinable(As(ls)) && Joinable(Bs(ls)) then Ok(Factors(CatTensors(As(ls)), CatTensors(Bs(ls)))) else Err(TorchError)
    else if forall k :: 1 <= k < |ls| ==> ls[k].A == ls[0].A then
      if Joinable(Bs(ls)) then Ok(Factors(ls[0].A, CatTensors(Bs(ls)))) else Err(TorchError)
    else Err(NotImplemented)
  }

  // ----- Rows of matrices

  lemma CatRowsShape(ls: seq<Factors>)
    requires AllProper(ls) && ls != [] && Dims(ls[0]) == 2 && Cat(ls).Ok?
    ensures Proper(Cat(ls).value) && Rank(Cat(ls).value) == Rank(ls[0])
    ensures Joinable(Denses(ls)) && Firsts(Denses(ls)) == Firsts(Bs(ls))
    ensures forall k :: 0 <= k < |ls| ==> ls[k].A == ls[0].A && Dims(ls[k]) == 2 && Rank(ls[k]) == Rank(ls[0])
    ensures ShapeOf(Cat(ls).value) == [Total(Firsts(Bs(ls))), ls[0].A.shape[1]]
    ensures CatTensors(Denses(ls)).shape == ShapeOf(Cat(ls).value)
  {
    hide Ravel, Prod, At, CatTensors, Dense, Total;
    forall k | 0 <= k < |ls|
      ensures ls[k].A == ls[0].A && Dims(ls[k]) == 2 && Rank(ls[k]) == Rank(ls[0])
      ensures Denses(ls)[k].shape == [ls[k].B.shape[0], ls[0].A.shape[1]]
    {
      assert Bs(ls)[k].shape[1..] == Bs(ls)[0].shape[1..];
      assert ls[k].A == ls[0].A;
      assert Bs(ls)[k].shape[1..][0] == Rank(ls[k]) && Bs(ls)[0].shape[1..][0] == Rank(ls[0]);
    }
    assert Cat(ls).value.B.shape == [Total(Firsts(Bs(ls)))] + ls[0].B.shape[1..];
    assert ls[0].B.shape[1..] == [Rank(ls[0])];
    assert Joinable(Denses(ls));
    forall k | 0 <= k < |ls|
      ensures Firsts(Denses(ls))[k] == Firsts(Bs(ls))[k]
    {
      assert Denses(ls)[k].shape != [] && Bs(ls)[k].shape != [];
    }
  }

  lemma CatRowsEntry(ls: seq<Factors>, i: nat, j: nat)
    requires AllProper(ls) && ls != [] && Dims(ls[0]) == 2 && Cat(ls).Ok?
    requires Proper(Cat(ls).value) && Joinable(Denses(ls)) && Firsts(Denses(ls)) == Firsts(Bs(ls))
    requires forall k :: 0 <= k < |ls| ==> ls[k].A == ls[0].A && Dims(ls[k]) == 2 && Rank(ls[k]) == Rank(ls[0])
    requires Rank(Cat(ls).value) == Rank(ls[0])
    requires ShapeOf(Cat(ls).value) == CatTensors(Denses(ls)).shape
    requires InShape([i, j], ShapeOf(Cat(ls).value))
    ensures At(Dense(Cat(ls).value), [i, j]) == At(CatTensors(Denses(ls)), [i, j])
  {
    hide Ravel, Prod, At, CatTensors, Dense, Term, Cat, Sum;
    var l' := Cat(ls).value;
    var shape := CatTensors(Denses(ls)).shape;
    assert [i, j][0] < shape[0] && [i, j][1] < shape[1];
    var (p, o) := Locate(Firsts(Bs(ls)), i);
    assert [i, j] == [i] + [j] && [o, j] == [o] + [j];
    CatAt(Denses(ls), i, [j]);
    DenseAt(ls[p], [o, j]);
    DenseAt(l', [i, j]);
    forall r | 0 <= r < Rank(l')
      ensures Terms(l', [i, j])[r] == Terms(ls[p], [o, j])[r]
    {
      CatRowsTerm(ls, i, j, r, p, o);
    }
    assert Terms(l', [i, j]) == Terms(ls[p], [o, j]);
  }

  lemma CatRowsTerm(ls: seq<Factors>, i: nat, j: nat, r: nat, p: nat, o: nat)
    requires AllProper(ls) && ls != [] && Dims(ls[0]) == 2 && Cat(ls).Ok? && Proper(Cat(ls).value)
    requires i < Total(Firsts(Bs(ls))) && Locate(Firsts(Bs(ls)), i) == (p, o)
    requires InShape([i, j], ShapeOf(Cat(ls).value)) && r < Rank(Cat(ls).value)
    requires ls[p].A == ls[0].A && InShape([o, j], ShapeOf(ls[p])) && r < Rank(ls[p]) && Rank(ls[p]) == Rank(ls[0])
    ensures Term(Cat(ls).value, [i, j], r) == Term(ls[p], [o, j], r)
  {
    hide Ravel, Prod, At, CatTensors, Term, Total, Locate, Firsts;
    var l' := Cat(ls).value;
    assert l'.A == ls[0].A && l'.B == CatTensors(Bs(ls)) && ls[0].B.shape[1..] == [Rank(ls[0])];
    CatAt(Bs(ls), i, [r]);
    assert IndexB([i, j], r) == [i] + [r] && IndexB([o, j], r) == [o] + [r];
    IndicesInShape(ls[p], [o, j], r);
    assert IndexA(l'.A.shape, [i, j], r) == [r, j] == IndexA(ls[p].A.shape, [o, j], r);
    TermsMeet(l', [i, j], ls[p], [o, j], r);
  }

  /** Matrices are joined exactly if they share A. */
  lemma CatRowsAccepts(ls: seq<Factors>)
    requires AllProper(ls) && ls != [] && Dims(ls[0]) == 2
    ensures Cat(ls).Ok? <==> forall k :: 0 <= k < |ls| ==> ls[k].A == ls[0].A
  {
    hide CatTensors;
    if forall k :: 0 <= k < |ls| ==> ls[k].A == ls[0].A {
      forall k | 0 <= k < |ls|
        ensures |Bs(ls)[k].shape| == 2 && Bs(ls)[k].shape[1..] == Bs(ls)[0].shape[1..]
      {
        assert Bs(ls)[k].shape[1..] == [Rank(ls[k])] && Bs(ls)[0].shape[1..] == [Rank(ls[0])];
      }
    }
  }

  /** Matrices sharing A, joined by their rows, stand for the joined products. */
  lemma CatRowsMeaning(ls: seq<Factors>)
    requires AllProper(ls) && ls != [] && Dims(ls[0]) == 2 && Cat(ls).Ok?
    ensures Proper(Cat(ls).value) && Joinable(Denses(ls))
    ensures Dense(Cat(ls).value) == CatTensors(Denses(ls))
  {
    hide Ravel, Prod, At, CatTensors, Dense, Cat, Total;
    CatRowsShape(ls);
    var s, t := Dense(Cat(ls).value), CatTensors(Denses(ls));
    forall idx | InShape(idx, s.shape)
      ensures At(s, idx) == At(t, idx)
    {
      assert idx == [idx[0], idx[1]];
      CatRowsEntry(ls, idx[0], idx[1]);
    }
    SameEntries(s, t);
  }

  // ----- Weights with more axes

  /** In every part, A is as long along the first axis as B. */
  predicate Aligned(ls: seq<Factors>)
    requires AllProper(ls)
  {
    forall k :: 0 <= k < |ls| ==> Dims(ls[k]) > 2 && ls[k].A.shape[0] == ls[k].B.shape[0]
  }

  lemma CatNdShape(ls: seq<Factors>)
    requires AllProper(ls) && ls != [] && Dims(ls[0]) > 2 && Cat(ls).Ok? && Aligned(ls)
    ensures Firsts(As(ls)) == Firsts(Bs(ls))
    ensures forall k :: 0 <= k < |ls| ==>
              && Dims(ls[k]) == Dims(ls[0]) && Rank(ls[k]) == Rank(ls[0])
              && ls[k].A.shape[1..] == ls[0].A.shape[1..] && ls[k].B.shape[1..] == ls[0].B.shape[1..]
    ensures Cat(ls).value.A.shape == [Total(Firsts(Bs(ls)))] + ls[0].A.shape[1..]
    ensures Cat(ls).value.B.shape == [Total(Firsts(Bs(ls)))] + ls[0].B.shape[1..]
  {
    hide Ravel, Prod, At, CatTensors, Dense, Total;
    forall k | 0 <= k < |ls|
      ensures && Dims(ls[k]) == Dims(ls[0]) && Rank(ls[k]) == Rank(ls[0])
              && ls[k].A.shape[1..] == ls[0].A.shape[1..] && ls[k].B.shape[1..] == ls[0].B.shape[1..]
      ensures Firsts(As(ls))[k] == Firsts(Bs(ls))[k]
    {
      assert As(ls)[k].shape[1..] == As(ls)[0].shape[1..] && Bs(ls)[k].shape[1..] == Bs(ls)[0].shape[1..];
      var n := Dims(ls[0]);
      assert Bs(ls)[k].shape[1..][n - 2] == Rank(ls[k]) && Bs(ls)[0].shape[1..][n - 2] == Rank(ls[0]);
    }
  }

  lemma CatNdProper(ls: seq<Factors>)
    requires AllProper(ls) && ls != [] && Dims(ls[0]) > 2 && Cat(ls).Ok? && Aligned(ls)
    ensures Proper(Cat(ls).value) && Rank(Cat(ls).value) == Rank(ls[0])
    ensures Joinable(Denses(ls)) && Firsts(Denses(ls)) == Firsts(Bs(ls))
    ensures CatTensors(Denses(ls)).shape == ShapeOf(Cat(ls).value)
    ensures ShapeOf(Cat(ls).value) == [Total(Firsts(Bs(ls)))] + ShapeOf(ls[0])[1..]
  {
    hide Ravel, Prod, At, CatTensors, Dense, Total, Firsts;
    CatNdShape(ls);
    var l', n := Cat(ls).value, Dims(ls[0]);
    forall i | 0 <= i < n - 2
      ensures l'.A.shape[i] == 1 || l'.A.shape[i] == l'.B.shape[i]
    {
      if i > 0 {
        assert l'.A.shape[i] == ls[0].A.shape[1..][i - 1] && l'.B.shape[i] == ls[0].B.shape[1..][i - 1];
      }
    }
    assert l'.A.shape[n - 2] == ls[0].A.shape[1..][n - 3] && l'.B.shape[n - 1] == ls[0].B.shape[1..][n - 2];
    DensesJoin(ls);
    var total, tailA, tailB := Total(Firsts(Bs(ls))), ls[0].A.shape[1..], ls[0].B.shape[1..];
    assert ([total] + tailB)[..n - 1] == [total] + tailB[..n - 2];
    assert ShapeOf(ls[0])[1..] == tailB[..n - 2] + [tailA[n - 2]];
    assert ShapeOf(l') == [total] + (tailB[..n - 2] + [tailA[n - 2]]);
  }

  lemma DensesJoin(ls: seq<Factors>)
    requires AllProper(ls) && ls != [] && Dims(ls[0]) > 2
    requires forall k :: 0 <= k < |ls| ==>
               && Dims(ls[k]) == Dims(ls[0])
               && ls[k].A.shape[1..] == ls[0].A.shape[1..] && ls[k].B.shape[1..] == ls[0].B.shape[1..]
    ensures Joinable(Denses(ls)) && Firsts(Denses(ls)) == Firsts(Bs(ls))
  {
    hide Ravel, Prod, At, Dense;
    var n := Dims(ls[0]);
    forall k | 0 <= k < |ls|
      ensures |Denses(ls)[k].shape| == n && Denses(ls)[k].shape[1..] == Denses(ls)[0].shape[1..]
      ensures Denses(ls)[k].shape[0] == Bs(ls)[k].shape[0]
    {
      assert ShapeOf(ls[k])[1..] == ls[k].B.shape[1..][..n - 2] + [ls[k].A.shape[1..][n - 2]];
      assert ShapeOf(ls[0])[1..] == ls[0].B.shape[1..][..n - 2] + [ls[0].A.shape[1..][n - 2]];
    }
  }

  lemma CatNdTerm(ls: seq<Factors>, i: nat, rest: Index, r: nat, p: nat, o: nat)
    requires AllProper(ls) && ls != [] && Dims(ls[0]) > 2 && Cat(ls).Ok? && Aligned(ls) && Proper(Cat(ls).value)
    requires |rest| + 1 == Dims(ls[0])
    requires i < Total(Firsts(Bs(ls))) && Locate(Firsts(Bs(ls)), i) == (p, o)
    requires InShape([i] + rest, ShapeOf(Cat(ls).value)) && r < Rank(Cat(ls).value)
    requires InShape([o] + rest, ShapeOf(ls[p])) && r < Rank(ls[p])
    ensures Term(Cat(ls).value, [i] + rest, r) == Term(ls[p], [o] + rest, r)
  {
    hide Ravel, Prod, At, CatTensors, Term, Total, Locate, Firsts, InShape, ShapeOf, Broadcasts;
    var l' := Cat(ls).value;
    CatNdShape(ls);
    var tailA, tailB := ls[0].A.shape[1..], ls[0].B.shape[1..];
    var a, b := IndexA(tailA, rest, r), IndexB(rest, r);
    assert ls[p].A.shape == [ls[p].A.shape[0]] + tailA;
    IndexACons(tailA, Total(Firsts(Bs(ls))), i, rest, r);
    IndexACons(tailA, ls[p].A.shape[0], o, rest, r);
    IndexBCons(i, rest, r);
    IndexBCons(o, rest, r);
    IndicesInShape(ls[p], [o] + rest, r);
    TailInShape(o, a, ls[p].A.shape[0], tailA);
    assert ls[p].B.shape == [ls[p].B.shape[0]] + tailB;
    TailInShape(o, b, ls[p].B.shape[0], tailB);
    CatAt(As(ls), i, a);
    CatAt(Bs(ls), i, b);
    TermsMeet(l', [i] + rest, ls[p], [o] + rest, r);
  }

  lemma TailInShape(i: nat, rest: Index, m: nat, shape: Shape)
    requires InShape([i] + rest, [m] + shape)
    ensures i < m && InShape(rest, shape)
  {
    assert ([i] + rest)[0] == i;
    forall k | 0 <= k < |rest|
      ensures rest[k] < shape[k]
    {
      assert ([i] + rest)[k + 1] < ([m] + shape)[k + 1];
    }
  }

  lemma CatNdEntry(ls: seq<Factors>, i: nat, rest: Index)
    requires AllProper(ls) && ls != [] && Dims(ls[0]) > 2 && Cat(ls).Ok? && Aligned(ls) && Proper(Cat(ls).value)
    requires Joinable(Denses(ls)) && Firsts(Denses(ls)) == Firsts(Bs(ls))
    requires CatTensors(Denses(ls)).shape == ShapeOf(Cat(ls).value)
    requires Rank(Cat(ls).value) == Rank(ls[0])
    requires InShape([i] + rest, ShapeOf(Cat(ls).value)) && |rest| + 1 == Dims(ls[0])
    ensures At(Dense(Cat(ls).value), [i] + rest) == At(CatTensors(Denses(ls)), [i] + rest)
  {
    hide Ravel, Prod, At, CatTensors, Dense, Term, Cat, Sum, Total, Locate, Firsts, InShape;
    var l' := Cat(ls).value;
    CatNdShape(ls);
    TailInShape(i, rest, Total(Firsts(Denses(ls))), Denses(ls)[0].shape[1..]);
    var (p, o) := Locate(Firsts(Bs(ls)), i);
    CatAt(Denses(ls), i, rest);
    DenseAt(ls[p], [o] + rest);
    DenseAt(l', [i] + rest);
    forall r | 0 <= r < Rank(l')
      ensures Terms(l', [i] + rest)[r] == Terms(ls[p], [o] + rest)[r]
    {
      CatNdTerm(ls, i, rest, r, p, o);
    }
    assert Terms(l', [i] + rest) == Terms(ls[p], [o] + rest);
  }

  lemma CatNdMeaning(ls: seq<Factors>)
    requires AllProper(ls) && ls != [] && Dims(ls[0]) > 2 && Cat(ls).Ok? && Aligned(ls)
    ensures Proper(Cat(ls).value) && Joinable(Denses(ls))
    ensures Dense(Cat(ls).value) == CatTensors(Denses(ls))
  {
    hide Ravel, Prod, At, CatTensors, Dense, Cat, Total;
    CatNdProper(ls);
    var s, t := Dense(Cat(ls).value), CatTensors(Denses(ls));
    forall idx | InShape(idx, s.shape)
      ensures At(s, idx) == At(t, idx)
    {
      assert idx == [idx[0]] + idx[1..];
      assert |s.shape| == |t.shape| == Dims(ls[0]);
      CatNdEntry(ls, idx[0], idx[1..]);
    }
    SameEntries(s, t);
  }

  lemma {:induction false} TotalsMatch(a: seq<nat>, b: seq<nat>)
    requires |a| == |b| && forall k :: 0 <= k < |a| ==> b[k] >= 1 && (a[k] == 1 || a[k] == b[k])
    ensures |a| <= Total(a) <= Total(b)
    ensures Total(a) == Total(b) <==> a == b
  {
    if a != [] {
      TotalsMatch(a[1..], b[1..]);
      assert a == [a[0]] + a[1..] && b == [b[0]] + b[1..];
    }
  }

  /**
   Two or more non-empty parts with more than two axes are joined rightly exactly if A is as long as B along the first
   axis in every part.
   */
  lemma CatNdOnlyAligned(ls: seq<Factors>)
    requires AllProper(ls) && |ls| >= 2 && Dims(ls[0]) > 2 && Cat(ls).Ok?
    requires forall k :: 0 <= k < |ls| ==> ls[k].B.shape[0] > 0
    ensures Proper(Cat(ls).value) <==> Aligned(ls)
    ensures Aligned(ls) ==> Joinable(Denses(ls)) && Dense(Cat(ls).value) == CatTensors(Denses(ls))
  {
    hide Ravel, Prod, At, CatTensors, Dense, Total;
    if Aligned(ls) {
      CatNdMeaning(ls);
    }
    if Proper(Cat(ls).value) {
      var a, b := Firsts(As(ls)), Firsts(Bs(ls));
      forall k | 0 <= k < |ls|
        ensures Dims(ls[k]) > 2 && a[k] == ls[k].A.shape[0] && b[k] == ls[k].B.shape[0] && b[k] >= 1
        ensures a[k] == 1 || a[k] == b[k]
      {
        assert |As(ls)[k].shape| == |As(ls)[0].shape|;
        assert As(ls)[k].shape != [] && Bs(ls)[k].shape != [];
      }
      TotalsMatch(a, b);
      assert Cat(ls).value.A.shape[0] == Total(a) && Cat(ls).value.B.shape[0] == Total(b);
      assert Aligned(ls);
    }
  }

  /** In general the joined factors go together exactly if A has one entry along the first axis in all, or as many as B. */
  lemma CatNdProperExactly(ls: seq<Factors>)
    requires AllProper(ls) && ls != [] && Dims(ls[0]) > 2 && Cat(ls).Ok?
    ensures Proper(Cat(ls).value) <==> Total(Firsts(As(ls))) == 1 || Total(Firsts(As(ls))) == Total(Firsts(Bs(ls)))
  {
    hide Ravel, Prod, At, CatTensors, Dense, Total, Firsts;
    var l', n := Cat(ls).value, Dims(ls[0]);
    var tailA, tailB := ls[0].A.shape[1..], ls[0].B.shape[1..];
    assert l'.A.shape == [Total(Firsts(As(ls)))] + tailA && l'.B.shape == [Total(Firsts(Bs(ls)))] + tailB;
    assert tailA[n - 3] == Rank(ls[0]) && tailB[n - 2] == Rank(ls[0]);
    forall i | 0 < i < n - 2
      ensures l'.A.shape[i] == 1 || l'.A.shape[i] == l'.B.shape[i]
    {
      assert l'.A.shape[i] == tailA[i - 1] == ls[0].A.shape[i] && l'.B.shape[i] == tailB[i - 1] == ls[0].B.shape[i];
    }
    assert l'.A.shape[n - 2] == tailA[n - 3] && l'.B.shape[n - 1] == tailB[n - 2];
    assert l'.A.shape[0] == Total(Firsts(As(ls))) && l'.B.shape[0] == Total(Firsts(Bs(ls)));
    assert Broadcasts(l'.A.shape, l'.B.shape) <==> l'.A.shape[0] == 1 || l'.A.shape[0] == l'.B.shape[0];
  }

  lemma CatTensorsOne(t: Tensor)
    requires Valid(t) && t.shape != []
    ensures Joinable([t]) && CatTensors([t]) == t
  {
    hide Ravel, Prod, At;
    var ts, m := [t], t.shape[0];
    assert Firsts(ts) == [m] && Total([m]) == m by {
      assert [m][1..] == [];
    }
    var c := CatTensors(ts);
    assert t.shape == [m] + t.shape[1..] && c.shape == t.shape;
    forall idx | InShape(idx, c.shape)
      ensures At(c, idx) == At(t, idx)
    {
      var rest := idx[1..];
      assert idx == [idx[0]] + rest;
      TailInShape(idx[0], rest, m, t.shape[1..]);
      CatAt(ts, idx[0], rest);
      assert Locate([m], idx[0]) == (0, idx[0]);
    }
    SameEntries(c, t);
  }

  /** One part alone is joined to itself. */
  lemma CatOne(l: Factors)
    requires Proper(l)
    ensures Cat([l]) == Ok(l)
  {
    hide CatTensors;
    CatTensorsOne(l.A);
    CatTensorsOne(l.B);
    assert As([l]) == [l.A] && Bs([l]) == [l.B];
  }

  /** Two weights broadcast along the first axis, joined to factors that do not go together. */
  lemma CatMisaligned(l: Factors)
    requires Proper(l) && l.A.shape == [1, 1, 1] && l.B.shape == [2, 1, 1]
    ensures Cat([l, l]).Ok? && !Proper(Cat([l, l]).value)
  {
    hide CatTensors;
    var ls := [l, l];
    assert As(ls) == [l.A, l.A] && Bs(ls) == [l.B, l.B];
    assert !Aligned(ls) by {
      assert ls[0].A.shape[0] != ls[0].B.shape[0];
    }
    CatNdOnlyAligned(ls);
  }

  // ----- Splitting and joining again

  lemma ChunkAt(sizes: seq<nat>, from: nat, k: nat)
    requires k < |sizes|
    ensures k == 0 ==> Chunks(sizes, from)[k] == Span(from, from + sizes[0])
    ensures k > 0 ==> Chunks(sizes, from)[k] == Chunks(sizes[1..], from + sizes[0])[k - 1]
  {
  }

  lemma LocateAt(sizes: seq<nat>, i: nat)
    requires i < Total(sizes)
    ensures i < sizes[0] ==> Locate(sizes, i) == (0, i)
    ensures i >= sizes[0] ==>
              && i - sizes[0] < Total(sizes[1..])
              && var (p, o) := Locate(sizes[1..], i - sizes[0]);
                 Locate(sizes, i) == (p + 1, o)
  {
  }

  lemma {:induction false} LocateChunk(sizes: seq<nat>, from: nat, i: nat)
    requires i < Total(sizes)
    ensures var (p, o) := Locate(sizes, i);
            Chunks(sizes, from)[p][o] == from + i
  {
    hide Positions, Chunks, Locate, Total;
    LocateAt(sizes, i);
    if i < sizes[0] {
      ChunkAt(sizes, from, 0);
    } else {
      var (p, o) := Locate(sizes[1..], i - sizes[0]);
      LocateChunk(sizes[1..], from + sizes[0], i - sizes[0]);
      ChunkAt(sizes, from, p + 1);
    }
  }

  /** Tensors split along the first axis and joined again. */
  lemma CatSplitTensor(t: Tensor, sizes: seq<nat>)
    requires Valid(t) && t.shape != [] && sizes != [] && Total(sizes) == t.shape[0]
    ensures AllValid(SplitTensor(t, 0, sizes)) && Joinable(SplitTensor(t, 0, sizes))
    ensures CatTensors(SplitTensor(t, 0, sizes)) == t
  {
    hide Ravel, Prod, At, CatTensors, Locate, Select;
    var ts := SplitTensor(t, 0, sizes);
    assert Firsts(ts) == sizes;
    assert t.shape == [t.shape[0]] + t.shape[1..];
    forall idx | InShape(idx, t.shape)
      ensures At(CatTensors(ts), idx) == At(t, idx)
    {
      assert idx == [idx[0]] + idx[1..];
      CatSplitAt(t, sizes, idx[0], idx[1..]);
    }
    SameEntries(CatTensors(ts), t);
  }

  lemma SplitPart(t: Tensor, sizes: seq<nat>, p: nat)
    requires Valid(t) && t.shape != [] && Total(sizes) == t.shape[0] && p < |sizes|
    ensures SplitTensor(t, 0, sizes)[p] == Select(t, 0, Chunks(sizes, 0)[p])
  {
  }

  lemma CatSplitAt(t: Tensor, sizes: seq<nat>, i: nat, rest: Index)
    requires Valid(t) && t.shape != [] && Total(sizes) == t.shape[0]
    requires AllValid(SplitTensor(t, 0, sizes)) && Joinable(SplitTensor(t, 0, sizes))
    requires Firsts(SplitTensor(t, 0, sizes)) == sizes && SplitTensor(t, 0, sizes)[0].shape[1..] == t.shape[1..]
    requires InShape([i] + rest, t.shape)
    ensures InShape([i] + rest, CatTensors(SplitTensor(t, 0, sizes)).shape)
    ensures At(CatTensors(SplitTensor(t, 0, sizes)), [i] + rest) == At(t, [i] + rest)
  {
    hide Ravel, Prod, At, CatTensors, Locate, Select, InShape, Firsts, Chunks, Total, Joinable, SplitTensor;
    var ts := SplitTensor(t, 0, sizes);
    assert t.shape == [t.shape[0]] + t.shape[1..];
    TailInShape(i, rest, t.shape[0], t.shape[1..]);
    CatAt(ts, i, rest);
    var (p, o) := Locate(sizes, i);
    LocateChunk(sizes, 0, i);
    var pos := Chunks(sizes, 0)[p];
    SplitPart(t, sizes, p);
    SelectAt(t, 0, pos, [o] + rest);
    assert SelectIndex(0, pos, [o] + rest) == [i] + rest;
  }

  /** A matrix split by rows and joined again is the matrix it was, factors and all. */
  lemma CatSplitRows(l: Factors, spec: SplitSize)
    requires Proper(l) && Dims(l) == 2 && Split(l, spec, 0).Ok? && Split(l, spec, 0).value != []
    ensures AllProper(Split(l, spec, 0).value)
    ensures Cat(Split(l, spec, 0).value) == Ok(l)
  {
    hide CatTensors, SplitTensor, Ravel, Prod;
    var sizes := SplitSizes(spec, l.B.shape[0]).value;
    var parts := Split(l, spec, 0).value;
    CatSplitTensor(l.B, sizes);
    SplitRowsB(l, spec, sizes);
    assert Bs(parts) == SplitTensor(l.B, 0, sizes);
  }

  lemma SplitRowsB(l: Factors, spec: SplitSize, sizes: seq<nat>)
    requires Proper(l) && Dims(l) == 2 && SplitSizes(spec, l.B.shape[0]) == Ok(sizes)
    ensures var parts := Split(l, spec, 0).value;
            && Split(l, spec, 0).Ok? && |parts| == |sizes|
            && forall k :: 0 <= k < |parts| ==>
                 Proper(parts[k]) && parts[k].A == l.A && parts[k].B == SplitTensor(l.B, 0, sizes)[k]
  {
  }
}
