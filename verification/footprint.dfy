/**
 How much video memory the service holds, from what the loaded models report of themselves, and how much of it a
 release has freed (api/state.py, _router_resident_footprints, _self_attributed_held_bytes, _handle_vram_release).
 */
module Footprint {
  import opened Wrappers
  import opened Router

  function Count(n: Option<int>): int {
    match n case None => 0 case Some(v) => v
  }

  function DeviceBytes(d: Device): int {
    if d.Device? then Count(d.model) + Count(d.context) + Count(d.compute) else 0
  }

  function Bytes(devices: seq<Device>): int {
    if devices == [] then 0 else Bytes(devices[..|devices| - 1]) + DeviceBytes(devices[|devices| - 1])
  }

  /** A loaded model and its bytes, if it has measured itself. */
  datatype Holding = Holding(name: string, bytes: Option<int>)

  predicate Held(e: Entry) {
    e.Entry? && e.status == "loaded" && e.name != ""
  }

  function HoldingOf(e: Entry): Holding
    requires Held(e)
  {
    Holding(e.name, if e.memory.None? || e.memory.value == [] then None else Some(Bytes(e.memory.value)))
  }

  function Holdings(entries: seq<Entry>): (hs: seq<Holding>)
  {
    if entries == [] then []
    else
      var last := entries[|entries| - 1];
      Holdings(entries[..|entries| - 1]) + if Held(last) then [HoldingOf(last)] else []
  }

  method ResidentFootprints(listing: Listing) returns (r: Option<seq<Holding>>)
    ensures r == if listing.None? then None else Some(Holdings(listing.value))
  {
    if listing.None? {
      return None;
    }
    var entries := listing.value;
    var resident: seq<Holding> := [];
    for i := 0 to |entries|
      invariant resident == Holdings(entries[..i])
    {
      assert entries[..i + 1][..i] == entries[..i];
      var e := entries[i];
      if Held(e) {
        if e.memory.None? || e.memory.value == [] {
          resident := resident + [Holding(e.name, None)];
        } else {
          var devices := e.memory.value;
          var total := 0;
          for k := 0 to |devices|
            invariant total == Bytes(devices[..k])
          {
            assert devices[..k + 1][..k] == devices[..k];
            total := total + DeviceBytes(devices[k]);
          }
          assert devices[..|devices|] == devices;
          resident := resident + [Holding(e.name, Some(total))];
        }
      }
    }
    assert entries[..|entries|] == entries;
    return Some(resident);
  }

  predicate AllMeasured(hs: seq<Holding>) {
    forall i :: 0 <= i < |hs| ==> hs[i].bytes.Some?
  }

  function Sum(hs: seq<Holding>): int {
    if hs == [] then 0 else Sum(hs[..|hs| - 1]) + Count(hs[|hs| - 1].bytes)
  }

  /** What is held: unknown without an answer, and unknown as soon as one loaded model is unmeasured. */
  function HeldBytes(listing: Listing): Option<int> {
    if listing.None? || !AllMeasured(Holdings(listing.value)) then None else Some(Sum(Holdings(listing.value)))
  }

  /** The second result says that no loaded model was unmeasured. */
  method SelfAttributedHeldBytes(listing: Listing) returns (held: Option<int>, all: bool)
    ensures held == HeldBytes(listing)
    ensures all <==> listing.None? || AllMeasured(Holdings(listing.value))
  {
    var resident := ResidentFootprints(listing);
    if resident.None? {
      return None, true;
    }
    var hs := resident.value;
    var total := 0;
    all := true;
    for i := 0 to |hs|
      invariant all <==> AllMeasured(hs[..i])
      invariant total == Sum(hs[..i])
    {
      assert hs[..i + 1][..i] == hs[..i] && hs[..i + 1][i] == hs[i];
      if hs[i].bytes.None? {
        all := false;
      } else {
        total := total + hs[i].bytes.value;
      }
      assert all <==> AllMeasured(hs[..i + 1]);
    }
    assert hs[..|hs|] == hs;
    return if all then Some(total) else None, all;
  }

  /** Held bytes are only read when the card answers too. */
  datatype Probe = Probe(gpuReachable: bool, listing: Listing)

  function Reading(p: Probe): Option<int> {
    if p.gpuReachable then HeldBytes(p.listing) else None
  }

  function Freed(before: Option<int>, after: Option<int>): nat {
    if before.Some? && after.Some? && before.value > after.value then before.value - after.value else 0
  }

  // ----- What the freed figure means

  predicate DistinctNames(hs: seq<Holding>) {
    forall i, k :: 0 <= i < k < |hs| ==> hs[i].name != hs[k].name
  }

  predicate HasName(hs: seq<Holding>, name: string) {
    exists i :: 0 <= i < |hs| && hs[i].name == name
  }

  /** The holdings of models that are not in another list. */
  function Left(before: seq<Holding>, after: seq<Holding>): seq<Holding> {
    if before == [] then []
    else
      var last := before[|before| - 1];
      Left(before[..|before| - 1], after) + if HasName(after, last.name) then [] else [last]
  }

  function Without(hs: seq<Holding>, i: nat): seq<Holding>
    requires i < |hs|
  {
    hs[..i] + hs[i + 1..]
  }

  lemma {:induction false} SumConcat(a: seq<Holding>, b: seq<Holding>)
    ensures Sum(a + b) == Sum(a) + Sum(b)
    decreases |b|
  {
    if b == [] {
      assert a + b == a;
    } else {
      SumConcat(a, b[..|b| - 1]);
      assert (a + b)[..|a + b| - 1] == a + b[..|b| - 1];
    }
  }

  lemma SumWithout(hs: seq<Holding>, i: nat)
    requires i < |hs|
    ensures Sum(hs) == Sum(Without(hs, i)) + Count(hs[i].bytes)
  {
    hide Sum;
    var front, mid, back := hs[..i], [hs[i]], hs[i + 1..];
    assert hs == front + mid + back;
    SumConcat(front + mid, back);
    SumConcat(front, mid);
    SumOne(hs[i]);
    SumConcat(front, back);
  }

  lemma SumOne(h: Holding)
    ensures Sum([h]) == Count(h.bytes)
  {
    assert [h][..0] == [];
  }

  lemma {:induction false} LeftOfOther(before: seq<Holding>, a: seq<Holding>, b: seq<Holding>)
    requires forall i :: 0 <= i < |before| ==> (HasName(a, before[i].name) <==> HasName(b, before[i].name))
    ensures Left(before, a) == Left(before, b)
    decreases |before|
  {
    if before != [] {
      LeftOfOther(before[..|before| - 1], a, b);
    }
  }

  lemma WithoutNames(hs: seq<Holding>, i: nat, name: string)
    requires i < |hs| && DistinctNames(hs)
    ensures DistinctNames(Without(hs, i))
    ensures HasName(Without(hs, i), name) <==> HasName(hs, name) && name != hs[i].name
  {
    var w := Without(hs, i);
    assert forall k :: 0 <= k < |w| ==> w[k] == if k < i then hs[k] else hs[k + 1];
    if HasName(hs, name) && name != hs[i].name {
      var k :| 0 <= k < |hs| && hs[k].name == name;
      assert w[if k < i then k else k - 1].name == name;
    }
  }

  /** The models in `after` are all in `before`, with the same bytes. */
  predicate SameBytes(before: seq<Holding>, after: seq<Holding>) {
    forall i :: 0 <= i < |after| ==> after[i] in before
  }

  lemma FromSomewhere(before: seq<Holding>, after: seq<Holding>)
    requires SameBytes(before, after) && after != []
    ensures before != []
  {
    assert after[0] in before;
  }

  lemma {:induction false} SumSplits(before: seq<Holding>, after: seq<Holding>)
    requires DistinctNames(before) && DistinctNames(after) && SameBytes(before, after)
    ensures Sum(before) == Sum(after) + Sum(Left(before, after))
    decreases |before|
  {
    if before == [] {
      if after != [] {
        FromSomewhere(before, after);
      }
    } else {
      var n := |before| - 1;
      var last, rest := before[n], before[..n];
      if HasName(after, last.name) {
        var i :| 0 <= i < |after| && after[i].name == last.name;
        IsTheOne(before, after, i);
        var less := Without(after, i);
        RestHasOthers(before, after, i);
        SumSplits(rest, less);
        SumWithout(after, i);
        forall k | 0 <= k < n
          ensures HasName(less, rest[k].name) <==> HasName(after, rest[k].name)
        {
          WithoutNames(after, i, rest[k].name);
        }
        LeftOfOther(rest, less, after);
        assert Left(before, after) == Left(rest, after) + [];
        assert Left(rest, after) + [] == Left(rest, after);
      } else {
        NotLast(before, after);
        SumSplits(rest, after);
        SumConcat(Left(rest, after), [last]);
        SumOne(last);
      }
    }
  }

  lemma IsTheOne(before: seq<Holding>, after: seq<Holding>, i: nat)
    requires before != [] && DistinctNames(before) && SameBytes(before, after)
    requires i < |after| && after[i].name == before[|before| - 1].name
    ensures after[i] == before[|before| - 1]
  {
    assert after[i] in before;
  }

  lemma NotLast(before: seq<Holding>, after: seq<Holding>)
    requires before != [] && SameBytes(before, after) && !HasName(after, before[|before| - 1].name)
    ensures SameBytes(before[..|before| - 1], after)
  {
    forall k | 0 <= k < |after|
      ensures after[k] in before[..|before| - 1]
    {
      assert after[k] in before;
    }
  }

  lemma RestHasOthers(before: seq<Holding>, after: seq<Holding>, i: nat)
    requires before != [] && DistinctNames(before) && DistinctNames(after) && SameBytes(before, after)
    requires i < |after| && after[i] == before[|before| - 1]
    ensures SameBytes(before[..|before| - 1], Without(after, i)) && DistinctNames(Without(after, i))
  {
    var w := Without(after, i);
    WithoutNames(after, i, "");
    forall k | 0 <= k < |w|
      ensures w[k] in before[..|before| - 1]
    {
      assert w[k] == after[if k < i then k else k + 1];
      assert w[k] in before;
    }
  }

  lemma {:induction false} LeftOnly(before: seq<Holding>, after: seq<Holding>)
    ensures forall h :: h in Left(before, after) <==> h in before && !HasName(after, h.name)
    decreases |before|
  {
    if before != [] {
      LeftOnly(before[..|before| - 1], after);
      assert before == before[..|before| - 1] + [before[|before| - 1]];
    }
  }

  /**
   If both readings are known, no model became loaded in between and none changed its bytes, the figure freed is the
   bytes of exactly the models that left (nothing, should those add up below zero).
   */
  lemma FreedIsWhatLeft(p: Probe, q: Probe)
    requires Reading(p).Some? && Reading(q).Some?
    requires var before, after := Holdings(p.listing.value), Holdings(q.listing.value);
             DistinctNames(before) && DistinctNames(after) && SameBytes(before, after)
    ensures var before, after := Holdings(p.listing.value), Holdings(q.listing.value);
            var left := Left(before, after);
            && Freed(Reading(p), Reading(q)) == (if Sum(left) > 0 then Sum(left) else 0)
            && forall h :: h in left <==> h in before && !HasName(after, h.name)
  {
    hide Holdings, Left, Sum;
    var before, after := Holdings(p.listing.value), Holdings(q.listing.value);
    SumSplits(before, after);
    LeftOnly(before, after);
  }

  lemma {:induction false} HoldingsHas(entries: seq<Entry>, k: nat)
    requires k < |entries| && Held(entries[k])
    ensures HoldingOf(entries[k]) in Holdings(entries)
    decreases |entries|
  {
    var n := |entries| - 1;
    if k < n {
      HoldingsHas(entries[..n], k);
    }
  }

  /** A loaded model that has not measured itself, a silent router or a silent card: nothing counts as freed. */
  lemma UnknownFreesNothing(p: Probe, q: Probe, k: nat)
    requires var u := p;
             || !u.gpuReachable || u.listing.None?
             || (k < |u.listing.value| && Held(u.listing.value[k]) && (u.listing.value[k].memory.None? || u.listing.value[k].memory.value == []))
    ensures Freed(Reading(p), Reading(q)) == 0 && Freed(Reading(q), Reading(p)) == 0
  {
    if p.gpuReachable && p.listing.Some? {
      HoldingsHas(p.listing.value, k);
      var hs := Holdings(p.listing.value);
      var i :| 0 <= i < |hs| && hs[i] == HoldingOf(p.listing.value[k]);
    }
  }

  // ----- The bytes of a listing, counted out

  lemma {:induction false} BytesAdd(a: seq<Device>, b: seq<Device>)
    ensures Bytes(a + b) == Bytes(a) + Bytes(b)
    decreases |b|
  {
    if b == [] {
      assert a + b == a;
    } else {
      BytesAdd(a, b[..|b| - 1]);
      assert (a + b)[..|a + b| - 1] == a + b[..|b| - 1];
    }
  }

  lemma {:induction false} HoldingsAdd(a: seq<Entry>, b: seq<Entry>)
    ensures Holdings(a + b) == Holdings(a) + Holdings(b)
    decreases |b|
  {
    if b == [] {
      assert a + b == a && Holdings(a) + [] == Holdings(a);
    } else {
      var n, last := |b| - 1, b[|b| - 1];
      HoldingsAdd(a, b[..n]);
      assert (a + b)[..|a + b| - 1] == a + b[..n];
      var more := if Held(last) then [HoldingOf(last)] else [];
      assert Holdings(a) + Holdings(b[..n]) + more == Holdings(a) + (Holdings(b[..n]) + more);
    }
  }

  /** What two parts of a listing hold adds up; it is unknown as soon as one of them is. */
  lemma HeldAdds(a: seq<Entry>, b: seq<Entry>)
    ensures HeldBytes(Some(a + b)) == (
              if HeldBytes(Some(a)).None? || HeldBytes(Some(b)).None? then None
              else Some(HeldBytes(Some(a)).value + HeldBytes(Some(b)).value))
  {
    hide Holdings, Sum, AllMeasured;
    HoldingsAdd(a, b);
    SumConcat(Holdings(a), Holdings(b));
    BothMeasured(Holdings(a), Holdings(b));
  }

  lemma BothMeasured(x: seq<Holding>, y: seq<Holding>)
    ensures AllMeasured(x + y) <==> AllMeasured(x) && AllMeasured(y)
  {
    var both := x + y;
    assert forall i :: 0 <= i < |x| ==> both[i] == x[i];
    assert forall i :: 0 <= i < |y| ==> both[|x| + i] == y[i];
  }

  function AbsentIsZero(n: Option<int>): int {
    if n.Some? then n.value else 0
  }

  /** One device counts its model, its context and its computation; what is no object counts nothing. */
  lemma DeviceCounts(d: Device)
    ensures Bytes([d]) == if d.NotAnObject? then 0 else AbsentIsZero(d.model) + AbsentIsZero(d.context) + AbsentIsZero(d.compute)
  {
    assert [d][..0] == [];
  }

  /** One entry counts if it is loaded and has a name: its devices' bytes, or unknown if it has published none. */
  lemma EntryCounts(e: Entry)
    ensures HeldBytes(Some([e])) == (
              if e.NotAnObject? || e.name == "" || e.status != "loaded" then Some(0)
              else if e.memory.None? || e.memory.value == [] then None
              else Some(Bytes(e.memory.value)))
  {
    assert [e][..0] == [] && Holdings([]) == [];
    if Held(e) {
      assert Holdings([e]) == [HoldingOf(e)];
      SumOne(HoldingOf(e));
    } else {
      assert Holdings([e]) == [];
    }
  }

  lemma NothingHeld()
    ensures HeldBytes(Some([])) == Some(0) && HeldBytes(None) == None
  {
  }

  /** A card with two models on two devices. */
  lemma TwoModels()
    ensures HeldBytes(Some([Entry("a", "loaded", Some([Device(Some(5), Some(3), Some(2)), Device(Some(7), None, Some(1))])),
                            Entry("b", "loading", None),
                            Entry("c", "loaded", Some([Device(Some(4), None, None)]))])) == Some(22)
  {
    hide HeldBytes, Bytes, Holdings;
    var d1, d2, d3 := Device(Some(5), Some(3), Some(2)), Device(Some(7), None, Some(1)), Device(Some(4), None, None);
    var a, b, c := Entry("a", "loaded", Some([d1, d2])), Entry("b", "loading", None), Entry("c", "loaded", Some([d3]));
    BytesAdd([d1], [d2]);
    DeviceCounts(d1);
    DeviceCounts(d2);
    DeviceCounts(d3);
    EntryCounts(a);
    EntryCounts(b);
    EntryCounts(c);
    HeldAdds([a], [b]);
    HeldAdds([a] + [b], [c]);
    assert [d1, d2] == [d1] + [d2] && [a, b, c] == [a] + [b] + [c];
  }
}
