/**
 One release request carried through (api/state.py, _handle_vram_release and _wait_for_models_unloaded), and that it
 does what its steps do in module Release.
 */
module Releasing {
  import opened Wrappers
  import opened Router
  import opened FirstSeen
  import opened Footprint
  import opened Release
  import opened Eviction

  /** What the outside answers during one request: clock readings and answers by their number. */
  datatype World = World(
    deadline: Time, before: Probe, listing: Listing, now: Time, size: Sizes,
    clock: nat -> Time, unloads: nat -> bool,
    settleClock: nat -> Time, settleListing: nat -> Listing, rounds: nat, after: Probe)

  datatype Response = Response(freed: nat, outcome: Outcome, evicted: seq<string>)

  // ----- Waiting for unloads

  predicate Names(e: Entry, name: string) {
    e.Entry? && e.name == name
  }

  /** The status of the last entry of a name. */
  function LastStatus(entries: seq<Entry>, name: string): (r: Option<string>)
    ensures r.Some? ==> exists i :: 0 <= i < |entries| && Names(entries[i], name) && entries[i].status == r.value
                                    && forall k :: i < k < |entries| ==> !Names(entries[k], name)
    ensures r.None? ==> forall i :: 0 <= i < |entries| ==> !Names(entries[i], name)
  {
    if entries == [] then None
    else
      var last := entries[|entries| - 1];
      assert forall i :: 0 <= i < |entries| - 1 ==> entries[..|entries| - 1][i] == entries[i];
      if Names(last, name) then Some(last.status) else LastStatus(entries[..|entries| - 1], name)
  }

  predicate Confirms(listing: Listing, name: string) {
    listing.Some? && LastStatus(listing.value, name) == Some("unloaded")
  }

  /** No listing of the first rounds shows the model unloaded. */
  predicate Unconfirmed(w: World, rounds: nat, name: string) {
    forall k :: 0 <= k < rounds ==> !Confirms(w.settleListing(k), name)
  }

  /**
   Ask until every model has been seen unloaded once or the deadline has passed. The clock is to pass the deadline
   in some round.
   */
  method WaitForModelsUnloaded(names: set<string>, w: World) returns (pending: set<string>, rounds: nat)
    requires w.settleClock(w.rounds) >= w.deadline
    ensures rounds <= w.rounds
    ensures pending == set name | name in names && Unconfirmed(w, rounds, name)
    ensures pending == {} || w.settleClock(rounds) >= w.deadline
    ensures forall k :: 0 <= k < rounds ==> w.settleClock(k) < w.deadline
  {
    pending := names;
    rounds := 0;
    while pending != {} && w.settleClock(rounds) < w.deadline
      invariant rounds <= w.rounds
      invariant pending == set name | name in names && Unconfirmed(w, rounds, name)
      invariant forall k :: 0 <= k < rounds ==> w.settleClock(k) < w.deadline
      decreases w.rounds - rounds
    {
      var listing := w.settleListing(rounds);
      if listing.Some? {
        pending := set name | name in pending && !Confirms(listing, name);
      }
      rounds := rounds + 1;
    }
  }

  // ----- One request

  /** The models evicted from number k on, until the clock reaches the deadline. */
  function Evicted(selected: seq<string>, k: nat, w: World): seq<string>
    requires k <= |selected|
    decreases |selected| - k
  {
    if k == |selected| || w.clock(k) >= w.deadline then []
    else (if w.unloads(k) then [selected[k]] else []) + Evicted(selected, k + 1, w)
  }

  function Selection(target: int, since: Since, w: World): seq<string> {
    var loaded := LoadedAfter(since, Listed(w.listing, w.now));
    LoadedKnown(since, w.listing, w.now);
    Chosen(loaded, w.listing, target, w.size)
  }

  function Answered(target: int, w: World): Outcome {
    var freed := Freed(Reading(w.before), Reading(w.after));
    Answer(freed, freed >= target)
  }

  class ReleaseService {
    var locked: bool
    const memory: LoadedMemory

    constructor (memory: LoadedMemory)
      ensures this.memory == memory && !locked
    {
      this.memory := memory;
      locked := false;
    }

    method ReadProbe(p: Probe) returns (held: Option<int>)
      ensures held == Reading(p)
    {
      if !p.gpuReachable {
        return None;
      }
      var all;
      held, all := SelfAttributedHeldBytes(p.listing);
    }

    method HandleRelease(target: int, w: World) returns (r: Response)
      requires w.settleClock(w.rounds) >= w.deadline
      modifies this, memory
      ensures locked == old(locked)
      ensures old(locked) ==> r == Response(0, Busy, []) && memory.since == old(memory.since)
      ensures !old(locked) ==>
                && memory.since == LoadedAfter(old(memory.since), Listed(w.listing, w.now))
                && r.outcome == Answered(target, w) && r.freed == r.outcome.freed
                && r.evicted == Evicted(Selection(target, old(memory.since), w), 0, w)
    {
      if locked {
        return Response(0, Busy, []);
      }
      locked := true;
      hide Chosen, Freed, LoadedAfter, Reading;
      var before := ReadProbe(w.before);
      ghost var since := memory.since;
      var residents := memory.SelectModelsToEvict(w.listing, w.now, target, w.size);
      LoadedKnown(since, w.listing, w.now);
      var selected := RequestNames(residents);
      ChosenAre(since, residents, target, w);
      var evicted := UnloadAll(selected, w);
      if evicted != [] {
        var pending, rounds := WaitForModelsUnloaded((set name | name in evicted), w);
      }
      var after := ReadProbe(w.after);
      var freed := Freed(before, after);
      locked := false;
      return Response(freed, Answer(freed, freed >= target), evicted);
    }
  }

  lemma ChosenAre(since: Since, residents: seq<Resident>, target: int, w: World)
    requires var loaded := LoadedAfter(since, Listed(w.listing, w.now));
             && (forall name :: Lists(w.listing, name, "loaded") ==> name in loaded)
             && residents == if w.listing.None? then [] else Select(Residents(w.listing.value, loaded), target, w.size)
    ensures RequestNames(residents) == Selection(target, since, w)
  {
    hide LoadedAfter, Lists;
  }

  lemma Associate(a: seq<string>, b: seq<string>, c: seq<string>)
    ensures a + b + c == a + (b + c)
  {
  }

  method UnloadAll(selected: seq<string>, w: World) returns (evicted: seq<string>)
    ensures evicted == Evicted(selected, 0, w)
  {
    evicted := [];
    for k := 0 to |selected|
      invariant Evicted(selected, 0, w) == evicted + Evicted(selected, k, w)
    {
      if w.clock(k) >= w.deadline {
        return;
      }
      var one := if w.unloads(k) then [selected[k]] else [];
      Associate(evicted, one, Evicted(selected, k + 1, w));
      if w.unloads(k) {
        evicted := evicted + [selected[k]];
      } else {
        assert evicted + one == evicted;
      }
    }
  }

  // ----- The handler is a run of its steps

  /** Machine t is machine m but for request i and the unloads. */
  predicate OnlyRequest(m: Machine, t: Machine, i: nat) {
    && i < |m.requests| == |t.requests| && t.requests == m.requests[i := t.requests[i]]
    && t.requests[i].target == m.requests[i].target
  }

  predicate Reaches(m: Machine, steps: seq<Step>, t: Machine) {
    RunEnabled(m, steps) && Run(m, steps) == t
  }

  lemma Onward(m: Machine, a: seq<Step>, t: Machine, b: seq<Step>, u: Machine)
    requires Reaches(m, a, t) && Reaches(t, b, u)
    ensures Reaches(m, a + b, u)
  {
    hide Run, RunEnabled;
    RunOn(m, a, b);
  }

  lemma ByOne(m: Machine, s: Step, t: Machine)
    requires Enabled(m, s) && Apply(m, s) == t
    ensures Reaches(m, [s], t)
  {
    hide Apply, Enabled, Run, RunEnabled;
    OneStep(m, s);
  }

  lemma UnloadOnce(m: Machine, i: nat, w: World) returns (t: Machine, s: Step)
    requires InPhase(m, i, Unloading) && m.requests[i].next <= |m.requests[i].selected| && m.requests[i].deadline == w.deadline
    ensures s == Unload(i, w.clock(m.requests[i].next), w.unloads(m.requests[i].next))
    ensures Reaches(m, [s], t) && OnlyRequest(m, t, i) && t.lock == m.lock && t.loaded == m.loaded
    ensures var r, q := m.requests[i], t.requests[i];
            q == if r.next == |r.selected| || w.clock(r.next) >= w.deadline
                 then r.(phase := if r.evicted == [] then Verifying else Settling)
                 else r.(next := r.next + 1, evicted := r.evicted + if w.unloads(r.next) then [r.selected[r.next]] else [])
  {
    hide Reaches;
    var r := m.requests[i];
    s := Unload(i, w.clock(r.next), w.unloads(r.next));
    t := Apply(m, s);
    ByOne(m, s, t);
  }

  /** The unloads one after the other, from number k on. */
  lemma {:induction false} UnloadsRun(m: Machine, i: nat, w: World) returns (steps: seq<Step>, t: Machine)
    requires InPhase(m, i, Unloading) && m.requests[i].next <= |m.requests[i].selected| && m.requests[i].deadline == w.deadline
    ensures Reaches(m, steps, t)
    ensures OnlyRequest(m, t, i) && t.lock == m.lock && t.loaded == m.loaded
    ensures var r, q := m.requests[i], t.requests[i];
            && q.phase == (if q.evicted == [] then Verifying else Settling)
            && q.evicted == r.evicted + Evicted(r.selected, r.next, w) && q.baseline == r.baseline
    decreases |m.requests[i].selected| - m.requests[i].next
  {
    hide Reaches;
    var r := m.requests[i];
    var u, s := UnloadOnce(m, i, w);
    if r.next == |r.selected| || w.clock(r.next) >= w.deadline {
      steps, t := [s], u;
      assert r.evicted + [] == r.evicted;
    } else {
      var more;
      more, t := UnloadsRun(u, i, w);
      Onward(m, [s], u, more, t);
      steps := [s] + more;
      var one := if w.unloads(r.next) then [r.selected[r.next]] else [];
      Associate(r.evicted, one, Evicted(r.selected, r.next + 1, w));
    }
  }

  /** Left undisturbed, a request ends as the handler does: same memory, same answer, same models, lock free. */
  lemma HandlerIsRun(m: Machine, i: nat, w: World) returns (steps: seq<Step>, t: Machine)
    requires Safe(m) && InPhase(m, i, Waiting) && !m.lock && m.requests[i].baseline == None && m.requests[i].evicted == []
    ensures Reaches(m, steps, t)
    ensures OnlyRequest(m, t, i) && !t.lock
    ensures t.loaded == LoadedAfter(m.loaded, Listed(w.listing, w.now))
    ensures t.requests[i].phase == Done(Answered(m.requests[i].target, w))
    ensures t.requests[i].evicted == Evicted(Selection(m.requests[i].target, m.loaded, w), 0, w)
  {
    hide Reaches, Chosen, LoadedAfter, Freed, Reading, Exclusive, Grouped, Logged, Subsequence;
    var a, t1 := BeforeUnloads(m, i, w);
    var b, t2 := UnloadsRun(t1, i, w);
    var c, t3 := AfterUnloads(t2, i, w);
    Onward(m, a, t1, b, t2);
    Onward(m, a + b, t2, c, t3);
    steps, t := a + b + c, t3;
  }

  lemma BeforeUnloads(m: Machine, i: nat, w: World) returns (steps: seq<Step>, t: Machine)
    requires Safe(m) && InPhase(m, i, Waiting) && !m.lock
    ensures Reaches(m, steps, t) && OnlyRequest(m, t, i)
    ensures t.loaded == LoadedAfter(m.loaded, Listed(w.listing, w.now))
    ensures var r := m.requests[i];
            t.requests[i] == r.(phase := Unloading, deadline := w.deadline, baseline := Reading(w.before), selected := Selection(r.target, m.loaded, w))
    ensures t.requests[i].next == 0
  {
    hide Reaches, Chosen, LoadedAfter, Freed, Reading, Exclusive, Grouped, Logged, Subsequence;
    var s1, s2, s3 := Acquire(i, w.deadline), Measure(i, w.before), Choose(i, w.listing, w.now, w.size);
    var m1 := Apply(m, s1);
    var m2 := Apply(m1, s2);
    t := Apply(m2, s3);
    ByOne(m, s1, m1);
    ByOne(m1, s2, m2);
    ByOne(m2, s3, t);
    Onward(m, [s1], m1, [s2], m2);
    Onward(m, [s1] + [s2], m2, [s3], t);
    steps := [s1] + [s2] + [s3];
  }

  lemma AfterUnloads(m: Machine, i: nat, w: World) returns (steps: seq<Step>, t: Machine)
    requires i < |m.requests| && InPhase(m, i, if m.requests[i].evicted == [] then Verifying else Settling)
    ensures Reaches(m, steps, t) && OnlyRequest(m, t, i) && !t.lock && t.loaded == m.loaded
    ensures var r := m.requests[i];
            var freed := Freed(r.baseline, Reading(w.after));
            t.requests[i] == r.(phase := Done(Answer(freed, freed >= r.target)))
  {
    hide Reaches, Freed, Reading;
    var m1, first := m, [];
    if m.requests[i].phase.Settling? {
      m1, first := Apply(m, Settle(i)), [Settle(i)];
      ByOne(m, Settle(i), m1);
    } else {
      Still(m);
    }
    var m2 := Apply(m1, Verify(i, w.after));
    t := Apply(m2, Leave(i));
    ByOne(m1, Verify(i, w.after), m2);
    ByOne(m2, Leave(i), t);
    Onward(m, first, m1, [Verify(i, w.after)], m2);
    Onward(m, first + [Verify(i, w.after)], m2, [Leave(i)], t);
    steps := first + [Verify(i, w.after)] + [Leave(i)];
  }

  lemma Still(m: Machine)
    ensures Reaches(m, [], m)
  {
  }

  // ----- What is evicted and what is answered

  predicate Increasing(pos: seq<nat>, n: nat) {
    && (forall i :: 0 <= i < |pos| ==> pos[i] < n)
    && forall i, k :: 0 <= i < k < |pos| ==> pos[i] < pos[k]
  }

  /** The unloads issued are the first `stop` of the selection: all before the deadline passes. */
  predicate StopsAt(selected: seq<string>, w: World, stop: nat) {
    && stop <= |selected|
    && (forall k :: 0 <= k < stop ==> w.clock(k) < w.deadline)
    && (stop < |selected| ==> w.clock(stop) >= w.deadline)
  }

  /** Evicted are, in their order, exactly the models whose unload was issued before the deadline and answered. */
  lemma EvictedExactly(selected: seq<string>, w: World) returns (stop: nat, pos: seq<nat>)
    ensures StopsAt(selected, w, stop) && Increasing(pos, stop)
    ensures forall k :: 0 <= k < stop ==> (w.unloads(k) <==> k in pos)
    ensures |Evicted(selected, 0, w)| == |pos| && forall i :: 0 <= i < |pos| ==> Evicted(selected, 0, w)[i] == selected[pos[i]]
  {
    stop, pos := EvictedFrom(selected, 0, w);
  }

  lemma {:induction false} EvictedFrom(selected: seq<string>, from: nat, w: World) returns (stop: nat, pos: seq<nat>)
    requires from <= |selected|
    ensures from <= stop <= |selected| && (forall k :: from <= k < stop ==> w.clock(k) < w.deadline)
    ensures stop < |selected| ==> w.clock(stop) >= w.deadline
    ensures Increasing(pos, stop) && (forall i :: 0 <= i < |pos| ==> from <= pos[i])
    ensures forall k :: from <= k < stop ==> (w.unloads(k) <==> k in pos)
    ensures |Evicted(selected, from, w)| == |pos| && forall i :: 0 <= i < |pos| ==> Evicted(selected, from, w)[i] == selected[pos[i]]
    decreases |selected| - from
  {
    if from == |selected| || w.clock(from) >= w.deadline {
      stop, pos := from, [];
    } else {
      var more;
      stop, more := EvictedFrom(selected, from + 1, w);
      pos := (if w.unloads(from) then [from] else []) + more;
    }
  }

  /** The figure answered is what was held less what is held, if both are known and it is less; it decides the status. */
  lemma AnsweredExactly(target: int, w: World)
    ensures var before, after := Reading(w.before), Reading(w.after);
            var freed := if before.None? || after.None? || before.value <= after.value then 0 else before.value - after.value;
            Answered(target, w) == Answer(freed, freed >= target)
    ensures Reading(w.before) == if w.before.gpuReachable then HeldBytes(w.before.listing) else None
    ensures Reading(w.after) == if w.after.gpuReachable then HeldBytes(w.after.listing) else None
  {
    hide HeldBytes;
  }
}
