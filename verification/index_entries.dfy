/** What indexing with a tuple reads: every entry of the result, by its index. */
module IndexEntries {
  import opened Tensors
  import opened Selecting

  /** The place on an axis that place e of the indexed axis comes from; an integer leaves no axis behind. */
  function Place(item: Item, size: nat, e: nat): nat {
    match item
    case Full => e
    case Single(i) => if i >= 0 then i else if i + size >= 0 then i + size else 0
    case Slice(pos) => if e < |pos| then pos[e] else 0
  }

  /** The places on the leading axes that the leading index x of the result comes from. */
  function Places(items: seq<Item>, shape: Shape, x: Index): (src: Index)
    requires |shape| == |items|
    decreases |items|
  {
    if items == [] then []
    else
      var k := |items| - 1;
      if items[k].Single? then Places(items[..k], shape[..k], x) + [Place(items[k], shape[k], 0)]
      else if x == [] then []
      else Places(items[..k], shape[..k], x[..|x| - 1]) + [Place(items[k], shape[k], x[|x| - 1])]
  }

  lemma OneAxis(t: Tensor, k: nat, item: Item, front: Index, e: nat, rest: Index)
    requires Valid(t) && k < |t.shape| && ItemFits(item, t.shape[k]) && |front| == k
    requires InShape(front + (if item.Single? then [] else [e]) + rest, IndexOne(t, k, item).shape)
    ensures InShape(front + [Place(item, t.shape[k], e)] + rest, t.shape)
    ensures At(IndexOne(t, k, item), front + (if item.Single? then [] else [e]) + rest)
         == At(t, front + [Place(item, t.shape[k], e)] + rest)
  {
    hide Ravel, Prod, At, Select, Pick;
    match item
    case Full =>
    case Single(i) =>
      assert front + [] + rest == front + rest;
      PickAt(t, k, Normal(i, t.shape[k]), front + rest);
      assert Insert(front + rest, k, Normal(i, t.shape[k])) == front + [Normal(i, t.shape[k])] + rest;
    case Slice(pos) =>
      var x := front + [e] + rest;
      assert x[k] == e && IndexOne(t, k, item).shape[k] == |pos|;
      SelectAt(t, k, pos, x);
      assert SelectIndex(k, pos, x) == front + [pos[e]] + rest;
  }

  /** The last leading axis of an index: nothing for an integer, otherwise one place. */
  lemma LastLead(items: seq<Item>, shape: Shape, x: Index)
    requires |items| == |shape| > 0 && InShape(x, LeadShape(shape, items))
    ensures var k := |items| - 1;
            var front, piece := LeadShape(shape[..k], items[..k]), Piece(shape[k], items[k]);
            if items[k].Single? then InShape(x, front) && piece == []
            else x != [] && InShape(x[..|x| - 1], front) && |piece| == 1 && x[|x| - 1] < piece[0]
  {
    var k := |items| - 1;
    var front := LeadShape(shape[..k], items[..k]);
    assert LeadShape(shape, items) == front + Piece(shape[k], items[k]);
    if items[k].Single? {
      assert front + [] == front;
    }
  }

  lemma FrontFits(items: seq<Item>, shape: Shape)
    requires items != [] && ItemsFit(items, shape)
    ensures var k := |items| - 1; ItemsFit(items[..k], shape[..k]) && ItemFits(items[k], shape[k])
  {
  }

  lemma FitsWithin(items: seq<Item>, shape: Shape, shape': Shape)
    requires |items| <= |shape| && |items| <= |shape'| && ItemsFit(items, shape[..|items|])
    requires shape[..|items|] == shape'[..|items|]
    ensures ItemsFit(items, shape')
  {
    forall j | 0 <= j < |items|
      ensures ItemFits(items[j], shape'[j])
    {
      assert shape[..|items|][j] == shape'[..|items|][j];
    }
  }

  lemma Glue(x: Index, rest: Index, a: Shape, b: Shape)
    requires InShape(x, a) && InShape(rest, b)
    ensures InShape(x + rest, a + b)
  {
  }

  /** x reads a leading index of the indexed tensor, and rest one of the axes behind. */
  predicate Reads(t: Tensor, items: seq<Item>, x: Index, rest: Index) {
    && Valid(t) && ItemsFit(items, t.shape)
    && InShape(x, LeadShape(t.shape[..|items|], items)) && InShape(rest, t.shape[|items|..])
  }

  /** The entry there is the entry of t at the places the items name. */
  predicate ComesFrom(t: Tensor, items: seq<Item>, x: Index, rest: Index)
    requires Valid(t) && ItemsFit(items, t.shape)
  {
    var src := Places(items, t.shape[..|items|], x);
    && |src| == |items| && InShape(src + rest, t.shape)
    && InShape(x + rest, IndexLead(t, items).shape)
    && At(IndexLead(t, items), x + rest) == At(t, src + rest)
  }

  /** The parts of x: the axes before the last item, and what the last item leaves. */
  function Before(items: seq<Item>, x: Index): Index {
    if items == [] || items[|items| - 1].Single? || x == [] then x else x[..|x| - 1]
  }

  function Left(items: seq<Item>, x: Index): Index {
    if items == [] || items[|items| - 1].Single? || x == [] then [] else [x[|x| - 1]]
  }

  lemma ReadsStep(t: Tensor, items: seq<Item>, x: Index, rest: Index)
    requires items != [] && Reads(t, items, x, rest)
    ensures var k := |items| - 1;
            && k < |t.shape| && ItemFits(items[k], t.shape[k])
            && Reads(IndexOne(t, k, items[k]), items[..k], Before(items, x), Left(items, x) + rest)
            && (items[k].Single? || x != []) && Before(items, x) + Left(items, x) == x
  {
    hide Prod, IndexOne, LeadShape, Piece;
    var k := |items| - 1;
    var shape, item := t.shape[..k + 1], items[k];
    assert shape[..k] == t.shape[..k] && shape[k] == t.shape[k];
    FrontFits(items, t.shape);
    LastLead(items, shape, x);
    IndexOneShape(t, k, item);
    var p, tail := Piece(t.shape[k], item), t.shape[k + 1..];
    Spliced(t.shape[..k], p, tail);
    FitsWithin(items[..k], t.shape, IndexOne(t, k, item).shape);
    Glue(Left(items, x), rest, p, tail);
  }

  /** Every entry of an indexed tensor is the entry at the places its items name. */
  lemma {:induction false} IndexLeadAt(t: Tensor, items: seq<Item>, x: Index, rest: Index)
    requires Reads(t, items, x, rest)
    ensures ComesFrom(t, items, x, rest)
    decreases |items|
  {
    hide Ravel, Prod, At, IndexOne, LeadShape, Place, Piece, Reads, ComesFrom;
    if items == [] {
      NothingLeads(t, x, rest);
    } else {
      var k := |items| - 1;
      ReadsStep(t, items, x, rest);
      ReadsValid(t, items, x, rest);
      ReadsValid(IndexOne(t, k, items[k]), items[..k], Before(items, x), Left(items, x) + rest);
      IndexLeadAt(IndexOne(t, k, items[k]), items[..k], Before(items, x), Left(items, x) + rest);
      ComesFromStep(t, items, x, rest);
    }
  }

  lemma ReadsValid(t: Tensor, items: seq<Item>, x: Index, rest: Index)
    requires Reads(t, items, x, rest)
    ensures Valid(t) && ItemsFit(items, t.shape)
  {
  }

  lemma ComesFromStep(t: Tensor, items: seq<Item>, x: Index, rest: Index)
    requires items != [] && Valid(t) && ItemsFit(items, t.shape)
    requires var k := |items| - 1;
             && ItemsFit(items[..k], IndexOne(t, k, items[k]).shape)
             && (items[k].Single? || x != [])
             && ComesFrom(IndexOne(t, k, items[k]), items[..k], Before(items, x), Left(items, x) + rest)
    ensures ComesFrom(t, items, x, rest)
  {
    hide Ravel, Prod, At, IndexOne, Place;
    var k := |items| - 1;
    var t1, shape := IndexOne(t, k, items[k]), t.shape[..k + 1];
    assert shape[..k] == t.shape[..k] == t1.shape[..k] && shape[k] == t.shape[k];
    var front, mid := Places(items[..k], shape[..k], Before(items, x)), Left(items, x);
    var e := if mid == [] then 0 else mid[0];
    assert Before(items, x) + (mid + rest) == x + rest && front + (mid + rest) == front + mid + rest;
    OneAxis(t, k, items[k], front, e, rest);
  }

  lemma NothingLeads(t: Tensor, x: Index, rest: Index)
    requires Reads(t, [], x, rest)
    ensures ComesFrom(t, [], x, rest)
  {
    assert x == [] && x + rest == rest && t.shape[0..] == t.shape;
  }

  /** Rows and columns first, then the leading axes. */
  lemma RowsAndCols(t: Tensor, m: nat, rows: seq<nat>, cols: seq<nat>, front: Index, i: nat, j: nat)
    requires Valid(t) && m + 2 == |t.shape| && Positions(rows, t.shape[m]) && Positions(cols, t.shape[m + 1])
    requires |front| == m && i < |rows| && j < |cols|
    requires InShape(front + [i, j], Select(Select(t, m + 1, cols), m, rows).shape)
    ensures InShape(front + [rows[i], cols[j]], t.shape)
    ensures At(Select(Select(t, m + 1, cols), m, rows), front + [i, j]) == At(t, front + [rows[i], cols[j]])
  {
    hide Ravel, Prod, At, Select;
    var x, t0 := front + [i, j], Select(t, m + 1, cols);
    assert x[m] == i && x[m + 1] == j;
    SelectAt(t0, m, rows, x);
    var y := front + [rows[i], j];
    assert SelectIndex(m, rows, x) == y && y[m + 1] == j;
    SelectAt(t, m + 1, cols, y);
    assert SelectIndex(m + 1, cols, y) == front + [rows[i], cols[j]];
  }

  /**
   The shape and every entry of a weight indexed with a tuple: leading axes as the items say, then the rows and the
   columns asked for.
   */
  lemma GetItemAt(t: Tensor, items: seq<Item>, rows: seq<nat>, cols: seq<nat>, x: Index, i: nat, j: nat)
    requires Valid(t) && |items| + 2 == |t.shape| && ItemsFit(items, t.shape)
    requires Positions(rows, t.shape[|items|]) && Positions(cols, t.shape[|items| + 1])
    requires InShape(x, LeadShape(t.shape[..|items|], items)) && i < |rows| && j < |cols|
    ensures var r, src := GetItemTensor(t, items, rows, cols), Places(items, t.shape[..|items|], x) + [rows[i], cols[j]];
            && r.shape == LeadShape(t.shape[..|items|], items) + [|rows|, |cols|]
            && InShape(x + [i, j], r.shape) && InShape(src, t.shape)
            && At(r, x + [i, j]) == At(t, src)
  {
    hide Ravel, Prod, At, Select, IndexLead, LeadShape, Places;
    var m := |items|;
    var t1 := Select(Select(t, m + 1, cols), m, rows);
    assert t1.shape[..m] == t.shape[..m] && t1.shape[m..] == [|rows|, |cols|];
    assert ItemsFit(items, t1.shape);
    IndexLeadShape(t1, items);
    IndexLeadAt(t1, items, x, [i, j]);
    RowsAndCols(t, m, rows, cols, Places(items, t.shape[..m], x), i, j);
  }
}
