/**
 Release requests that run side by side (api/state.py, _handle_vram_release). Each step of each request is atomic;
 steps of different requests interleave in any way, and what they observe is a parameter.
 */
module Release {
  import opened Wrappers
  import opened Router
  import opened FirstSeen
  import opened Footprint

  datatype Outcome = Busy | Answer(freed: nat, released: bool) | Raised

  /** Where a request is in the handler; from Locked to Leaving it holds the lock. */
  datatype Phase = Waiting | Locked | Measured | Unloading | Settling | Verifying | Leaving(outcome: Outcome) | Done(outcome: Outcome)

  datatype Request = Request(
    target: int, phase: Phase, deadline: Time, baseline: Option<int>,
    selected: seq<string>, next: nat, evicted: seq<string>)

  /** The lock, the requests so far, the shared memory of loaded models, and every unload issued, by request. */
  datatype Machine = Machine(lock: bool, requests: seq<Request>, loaded: Since, unloads: seq<(nat, string)>)

  const IDLE := Machine(false, [], map[], [])

  predicate Critical(p: Phase) {
    !p.Waiting? && !p.Done?
  }

  function RequestNames(rs: seq<Resident>): (names: seq<string>)
    ensures |names| == |rs| && forall i :: 0 <= i < |rs| ==> names[i] == rs[i].name
  {
    if rs == [] then [] else RequestNames(rs[..|rs| - 1]) + [rs[|rs| - 1].name]
  }

  datatype Step =
    | Arrive(target: int)
    | Acquire(i: nat, deadline: Time)
    | Measure(i: nat, probe: Probe)
    | Choose(i: nat, listing: Listing, now: Time, size: Sizes)
    | Unload(i: nat, now: Time, answered: bool)
    | Settle(i: nat)
    | Verify(i: nat, probe: Probe)
    | Raise(i: nat)
    | Leave(i: nat)

  predicate InPhase(m: Machine, i: nat, p: Phase) {
    i < |m.requests| && m.requests[i].phase == p
  }

  predicate Enabled(m: Machine, s: Step) {
    match s
    case Arrive(_) => true
    case Acquire(i, _) => InPhase(m, i, Waiting)
    case Measure(i, _) => InPhase(m, i, Locked)
    case Choose(i, listing, now, _) => InPhase(m, i, Measured)
    case Unload(i, _, _) => InPhase(m, i, Unloading)
    case Settle(i) => InPhase(m, i, Settling)
    case Verify(i, _) => InPhase(m, i, Verifying)
    case Raise(i) => i < |m.requests| && Critical(m.requests[i].phase) && !m.requests[i].phase.Leaving?
    case Leave(i) => i < |m.requests| && m.requests[i].phase.Leaving?
  }

  function Set(m: Machine, i: nat, r: Request): Machine
    requires i < |m.requests|
  {
    m.(requests := m.requests[i := r])
  }

  function Chosen(loaded: Since, listing: Listing, target: int, size: Sizes): seq<string>
    requires forall name :: Lists(listing, name, "loaded") ==> name in loaded
  {
    if listing.None? then [] else RequestNames(Select(Residents(listing.value, loaded), target, size))
  }

  lemma LoadedKnown(m: Since, listing: Listing, now: Time)
    ensures forall name :: Lists(listing, name, "loaded") ==> name in LoadedAfter(m, Listed(listing, now))
  {
  }

  function Apply(m: Machine, s: Step): Machine
    requires Enabled(m, s)
  {
    match s
    case Arrive(target) => m.(requests := m.requests + [Request(target, Waiting, 0, None, [], 0, [])])
    case Acquire(i, deadline) =>
      var r := m.requests[i];
      if m.lock then Set(m, i, r.(phase := Done(Busy)))
      else Set(m, i, r.(phase := Locked, deadline := deadline)).(lock := true)
    case Measure(i, probe) =>
      Set(m, i, m.requests[i].(phase := Measured, baseline := Reading(probe)))
    case Choose(i, listing, now, size) =>
      var loaded := LoadedAfter(m.loaded, Listed(listing, now));
      LoadedKnown(m.loaded, listing, now);
      var r := m.requests[i];
      Set(m, i, r.(phase := Unloading, selected := Chosen(loaded, listing, r.target, size))).(loaded := loaded)
    case Unload(i, now, answered) =>
      var r := m.requests[i];
      if r.next >= |r.selected| || now >= r.deadline then
        Set(m, i, r.(phase := if r.evicted == [] then Verifying else Settling))
      else
        var name := r.selected[r.next];
        Set(m, i, r.(next := r.next + 1, evicted := if answered then r.evicted + [name] else r.evicted))
          .(unloads := m.unloads + [(i, name)])
    case Settle(i) => Set(m, i, m.requests[i].(phase := Verifying))
    case Verify(i, probe) =>
      var r := m.requests[i];
      var freed := Freed(r.baseline, Reading(probe));
      Set(m, i, r.(phase := Leaving(Answer(freed, freed >= r.target))))
    case Raise(i) => Set(m, i, m.requests[i].(phase := Leaving(Raised)))
    case Leave(i) => Set(m, i, m.requests[i].(phase := Done(m.requests[i].phase.outcome))).(lock := false)
  }

  // ----- Runs

  predicate RunEnabled(m: Machine, steps: seq<Step>)
    decreases |steps|
  {
    steps == [] || (Enabled(m, steps[0]) && RunEnabled(Apply(m, steps[0]), steps[1..]))
  }

  function Run(m: Machine, steps: seq<Step>): Machine
    requires RunEnabled(m, steps)
    decreases |steps|
  {
    if steps == [] then m else Run(Apply(m, steps[0]), steps[1..])
  }

  // ----- What every run keeps

  function UnloadsOf(unloads: seq<(nat, string)>, i: nat): seq<string> {
    if unloads == [] then []
    else
      var last := unloads[|unloads| - 1];
      UnloadsOf(unloads[..|unloads| - 1], i) + if last.0 == i then [last.1] else []
  }

  predicate Subsequence(a: seq<string>, b: seq<string>) {
    if a == [] then true
    else if b == [] then false
    else
      Subsequence(a, b[..|b| - 1])
      || (a[|a| - 1] == b[|b| - 1] && Subsequence(a[..|a| - 1], b[..|b| - 1]))
  }

  predicate Sound(r: Request) {
    && r.next <= |r.selected|
    && Subsequence(r.evicted, Issued(r))
    && (r.phase.Waiting? || r.phase.Locked? || r.phase.Measured? ==> r.selected == [])
    && (r.phase == Done(Busy) ==> r.selected == [])
    && r.phase != Leaving(Busy)
    && (r.phase.Leaving? || r.phase.Done? ==> r.phase.outcome.Answer? ==> (r.phase.outcome.released <==> r.phase.outcome.freed >= r.target))
  }

  /** The lock is held exactly while one request is between taking and giving it back. */
  predicate Exclusive(m: Machine) {
    && (m.lock <==> exists i :: 0 <= i < |m.requests| && Critical(m.requests[i].phase))
    && forall i, k :: 0 <= i < k < |m.requests| ==> !(Critical(m.requests[i].phase) && Critical(m.requests[k].phase))
  }

  /** Unloads of one request stand together, and a request that is unloading was the last to do so. */
  predicate Grouped(m: Machine) {
    && (forall a :: 0 <= a < |m.unloads| ==> m.unloads[a].0 < |m.requests|)
    && Together(m.unloads)
    && (forall i :: 0 <= i < |m.requests| && Critical(m.requests[i].phase) ==> Latest(m.unloads, i))
  }

  predicate Together(unloads: seq<(nat, string)>) {
    forall a, b, c :: 0 <= a < b < c < |unloads| && unloads[a].0 == unloads[c].0 ==> unloads[b].0 == unloads[a].0
  }

  /** If any unload is of request i, the last one is. */
  predicate Latest(unloads: seq<(nat, string)>, i: nat) {
    forall a :: 0 <= a < |unloads| && unloads[a].0 == i ==> unloads[|unloads| - 1].0 == i
  }

  /** The models a request has issued unloads for: a prefix of its selection. */
  function Issued(r: Request): seq<string> {
    if r.next <= |r.selected| then r.selected[..r.next] else r.selected
  }

  predicate Logged(m: Machine) {
    forall i :: 0 <= i < |m.requests| ==> UnloadsOf(m.unloads, i) == Issued(m.requests[i])
  }

  predicate Safe(m: Machine) {
    && Exclusive(m) && Grouped(m) && Logged(m)
    && forall i :: 0 <= i < |m.requests| ==> Sound(m.requests[i])
  }

  lemma {:induction false} NoneIssued(unloads: seq<(nat, string)>, i: nat, a: nat)
    requires UnloadsOf(unloads, i) == [] && a < |unloads|
    ensures unloads[a].0 != i
    decreases |unloads|
  {
    if a < |unloads| - 1 {
      NoneIssued(unloads[..|unloads| - 1], i, a);
    }
  }

  lemma {:induction false} NoRequestNoUnload(unloads: seq<(nat, string)>, i: nat)
    requires forall a :: 0 <= a < |unloads| ==> unloads[a].0 != i
    ensures UnloadsOf(unloads, i) == []
    decreases |unloads|
  {
    if unloads != [] {
      NoRequestNoUnload(unloads[..|unloads| - 1], i);
    }
  }

  lemma OneMoreUnload(unloads: seq<(nat, string)>, i: nat, name: string, k: nat)
    ensures UnloadsOf(unloads + [(i, name)], k) == if k == i then UnloadsOf(unloads, k) + [name] else UnloadsOf(unloads, k)
  {
    assert (unloads + [(i, name)])[..|unloads|] == unloads;
  }

  lemma SubsequenceOn(a: seq<string>, b: seq<string>, x: string)
    requires Subsequence(a, b)
    ensures Subsequence(a, b + [x]) && Subsequence(a + [x], b + [x])
  {
    assert (b + [x])[..|b|] == b && (a + [x])[..|a|] == a;
  }

  /** A request inside the critical section changes and stays inside; the unloads stand. */
  lemma InsideSafe(m: Machine, t: Machine, i: nat)
    requires Safe(m) && i < |m.requests| == |t.requests| && t.requests == m.requests[i := t.requests[i]]
    requires t.lock == m.lock && t.unloads == m.unloads
    requires Critical(m.requests[i].phase) && Critical(t.requests[i].phase)
    requires Sound(t.requests[i]) && Issued(t.requests[i]) == Issued(m.requests[i])
    ensures Safe(t)
  {
    hide Sound, Issued, Critical;
    assert m.lock && t.lock;
  }

  lemma UnloadSafe(m: Machine, t: Machine, i: nat, name: string)
    requires Safe(m) && i < |m.requests| == |t.requests| && t.requests == m.requests[i := t.requests[i]]
    requires t.lock == m.lock && t.unloads == m.unloads + [(i, name)]
    requires Critical(m.requests[i].phase) && Critical(t.requests[i].phase)
    requires Sound(t.requests[i]) && Issued(t.requests[i]) == Issued(m.requests[i]) + [name]
    ensures Safe(t)
  {
    hide Sound, Issued, Critical, UnloadsOf;
    forall k | 0 <= k < |t.requests|
      ensures UnloadsOf(t.unloads, k) == Issued(t.requests[k])
    {
      OneMoreUnload(m.unloads, i, name, k);
    }
    assert m.lock && t.lock;
    UnloadGrouped(m, t, i, name);
  }

  lemma UnloadGrouped(m: Machine, t: Machine, i: nat, name: string)
    requires Exclusive(m) && Grouped(m) && i < |m.requests| == |t.requests| && t.requests == m.requests[i := t.requests[i]]
    requires t.unloads == m.unloads + [(i, name)]
    requires Critical(m.requests[i].phase) && Critical(t.requests[i].phase)
    ensures Grouped(t)
  {
    hide Critical, Together, Latest;
    StaysTogether(m.unloads, i, name);
    forall k | 0 <= k < |t.requests| && Critical(t.requests[k].phase)
      ensures k == i
    {
      assert Critical(m.requests[k].phase);
    }
  }

  lemma StaysTogether(unloads: seq<(nat, string)>, i: nat, name: string)
    requires Together(unloads) && Latest(unloads, i)
    ensures Together(unloads + [(i, name)]) && Latest(unloads + [(i, name)], i)
  {
    var n, more := |unloads|, unloads + [(i, name)];
    forall a, b, c | 0 <= a < b < c < |more| && more[a].0 == more[c].0
      ensures more[b].0 == more[a].0
    {
      if c == n && b < n - 1 {
        assert unloads[n - 1].0 == i;
      }
    }
  }

  lemma AcquireExclusive(m: Machine, i: nat, deadline: Time)
    requires Exclusive(m) && InPhase(m, i, Waiting)
    ensures Exclusive(Apply(m, Acquire(i, deadline)))
  {
    var t := Apply(m, Acquire(i, deadline));
    assert forall k :: 0 <= k < |m.requests| && k != i ==> t.requests[k] == m.requests[k];
    if !m.lock {
      assert Critical(t.requests[i].phase);
    } else {
      var k :| 0 <= k < |m.requests| && Critical(m.requests[k].phase);
      assert Critical(t.requests[k].phase);
    }
  }

  /** A request changes without unloading; whether it is inside may change. */
  lemma EdgeSafe(m: Machine, t: Machine, i: nat)
    requires Safe(m) && i < |m.requests| == |t.requests| && t.requests == m.requests[i := t.requests[i]]
    requires t.unloads == m.unloads && Exclusive(t)
    requires Critical(t.requests[i].phase) ==> Latest(m.unloads, i)
    requires Sound(t.requests[i]) && Issued(t.requests[i]) == Issued(m.requests[i])
    ensures Safe(t)
  {
    hide Sound, Issued, Critical, Exclusive, Latest, Together, UnloadsOf;
    assert forall k :: 0 <= k < |m.requests| && k != i ==> t.requests[k] == m.requests[k];
  }

  lemma NothingIssued(m: Machine, i: nat)
    requires Safe(m) && InPhase(m, i, Waiting)
    ensures Latest(m.unloads, i)
  {
    hide UnloadsOf, Grouped, Exclusive, Subsequence;
    assert UnloadsOf(m.unloads, i) == [];
    forall a | 0 <= a < |m.unloads|
      ensures m.unloads[a].0 != i
    {
      NoneIssued(m.unloads, i, a);
    }
  }

  lemma AcquireSafe(m: Machine, i: nat, deadline: Time)
    requires Safe(m) && InPhase(m, i, Waiting)
    ensures Safe(Apply(m, Acquire(i, deadline)))
  {
    hide Grouped, Logged, Exclusive, Subsequence, Latest;
    var t := Apply(m, Acquire(i, deadline));
    AcquireExclusive(m, i, deadline);
    NothingIssued(m, i);
    EdgeSafe(m, t, i);
  }

  lemma LeaveSafe(m: Machine, i: nat)
    requires Safe(m) && Enabled(m, Leave(i))
    ensures Safe(Apply(m, Leave(i))) && !Apply(m, Leave(i)).lock
  {
    hide UnloadsOf, Together, Latest, Subsequence;
    var t := Apply(m, Leave(i));
    assert Critical(m.requests[i].phase);
    assert forall k :: 0 <= k < |m.requests| && k != i ==> t.requests[k] == m.requests[k];
  }

  lemma ArriveExclusive(m: Machine, target: int)
    requires Exclusive(m)
    ensures Exclusive(Apply(m, Arrive(target)))
  {
    var t := Apply(m, Arrive(target));
    assert forall k :: 0 <= k < |m.requests| ==> t.requests[k] == m.requests[k];
    if m.lock {
      var k :| 0 <= k < |m.requests| && Critical(m.requests[k].phase);
      assert Critical(t.requests[k].phase);
    }
  }

  lemma ArriveGrouped(m: Machine, target: int)
    requires Grouped(m)
    ensures Grouped(Apply(m, Arrive(target)))
  {
    hide Together, Latest;
    var t := Apply(m, Arrive(target));
    assert forall k :: 0 <= k < |m.requests| ==> t.requests[k] == m.requests[k];
  }

  lemma ArriveLogged(m: Machine, target: int)
    requires Grouped(m) && Logged(m)
    ensures Logged(Apply(m, Arrive(target)))
  {
    hide Together, Latest, UnloadsOf;
    var t := Apply(m, Arrive(target));
    assert forall k :: 0 <= k < |m.requests| ==> t.requests[k] == m.requests[k];
    NoRequestNoUnload(m.unloads, |m.requests|);
  }

  lemma ArriveSafe(m: Machine, target: int)
    requires Safe(m)
    ensures Safe(Apply(m, Arrive(target)))
  {
    hide Grouped, Logged, Exclusive, Subsequence;
    var t := Apply(m, Arrive(target));
    ArriveExclusive(m, target);
    ArriveGrouped(m, target);
    ArriveLogged(m, target);
    assert forall k :: 0 <= k < |m.requests| ==> t.requests[k] == m.requests[k];
    NothingYet();
  }

  lemma NothingYet()
    ensures Subsequence([], [])
  {
  }

  lemma UnloadStepSafe(m: Machine, i: nat, now: Time, answered: bool)
    requires Safe(m) && InPhase(m, i, Unloading)
    ensures Safe(Apply(m, Unload(i, now, answered)))
  {
    hide Exclusive, Grouped, Logged, Subsequence;
    var r, t := m.requests[i], Apply(m, Unload(i, now, answered));
    if r.next >= |r.selected| || now >= r.deadline {
      InsideSafe(m, t, i);
    } else {
      var name := r.selected[r.next];
      assert Issued(t.requests[i]) == Issued(r) + [name];
      SubsequenceOn(r.evicted, Issued(r), name);
      UnloadSafe(m, t, i, name);
    }
  }

  lemma StepSafe(m: Machine, s: Step)
    requires Safe(m) && Enabled(m, s)
    ensures Safe(Apply(m, s))
  {
    hide Exclusive, Grouped, Logged, UnloadsOf, Subsequence, Chosen, Reading, LoadedAfter;
    match s
    case Arrive(target) => ArriveSafe(m, target);
    case Acquire(i, deadline) => AcquireSafe(m, i, deadline);
    case Measure(i, _) => InsideSafe(m, Apply(m, s), i);
    case Choose(i, _, _, _) => InsideSafe(m, Apply(m, s), i);
    case Unload(i, now, answered) => UnloadStepSafe(m, i, now, answered);
    case Settle(i) => InsideSafe(m, Apply(m, s), i);
    case Verify(i, _) => InsideSafe(m, Apply(m, s), i);
    case Raise(i) => InsideSafe(m, Apply(m, s), i);
    case Leave(i) => LeaveSafe(m, i);
  }

  /** Whatever the interleaving, every state reached is safe. */
  lemma {:induction false} RunSafe(m: Machine, steps: seq<Step>)
    requires Safe(m) && RunEnabled(m, steps)
    ensures Safe(Run(m, steps))
    decreases |steps|
  {
    hide Safe, Apply, Enabled;
    if steps != [] {
      StepSafe(m, steps[0]);
      RunSafe(Apply(m, steps[0]), steps[1..]);
    }
  }

  lemma FromIdle(steps: seq<Step>)
    requires RunEnabled(IDLE, steps)
    ensures Safe(Run(IDLE, steps))
  {
    hide Apply, Enabled;
    RunSafe(IDLE, steps);
  }

  // ----- What that means for one request

  /** A request finds the service busy exactly if another is inside, and then changes nothing but its own answer. */
  lemma BusyIffOccupied(m: Machine, i: nat, deadline: Time)
    requires Safe(m) && InPhase(m, i, Waiting)
    ensures var t := Apply(m, Acquire(i, deadline));
            && (t.requests[i].phase == Done(Busy) <==> exists k :: 0 <= k < |m.requests| && Critical(m.requests[k].phase))
            && (t.requests[i].phase == Done(Busy) ==> t == m.(requests := m.requests[i := m.requests[i].(phase := Done(Busy))]))
            && UnloadsOf(t.unloads, i) == []
  {
    hide UnloadsOf, Grouped, Subsequence;
  }

  /** An answered request is never touched again. */
  lemma {:induction false} DoneStays(m: Machine, steps: seq<Step>, i: nat)
    requires RunEnabled(m, steps) && i < |m.requests| && m.requests[i].phase.Done?
    ensures |Run(m, steps).requests| >= |m.requests| && Run(m, steps).requests[i] == m.requests[i]
    decreases |steps|
  {
    if steps != [] {
      DoneStaysOnce(m, steps[0], i);
      hide Apply, Enabled;
      DoneStays(Apply(m, steps[0]), steps[1..], i);
    }
  }

  lemma DoneStaysOnce(m: Machine, s: Step, i: nat)
    requires Enabled(m, s) && i < |m.requests| && m.requests[i].phase.Done?
    ensures |Apply(m, s).requests| >= |m.requests| && Apply(m, s).requests[i] == m.requests[i]
  {
    hide Chosen, Reading, LoadedAfter;
  }

  /** A request once told busy has unloaded nothing and never will. */
  lemma BusyUnloadsNothing(m: Machine, steps: seq<Step>, i: nat)
    requires Safe(m) && RunEnabled(m, steps) && InPhase(m, i, Done(Busy))
    ensures UnloadsOf(Run(m, steps).unloads, i) == []
  {
    hide UnloadsOf, Grouped, Exclusive, Subsequence, Apply, Enabled;
    RunSafe(m, steps);
    DoneStays(m, steps, i);
  }

  /** After any run with no request inside, the lock is free. */
  lemma FreeWhenDone(steps: seq<Step>)
    requires RunEnabled(IDLE, steps)
    requires forall i :: 0 <= i < |Run(IDLE, steps).requests| ==> !Critical(Run(IDLE, steps).requests[i].phase)
    ensures !Run(IDLE, steps).lock
  {
    hide Grouped, Logged, Sound, Apply, Enabled, Critical, Run;
    FromIdle(steps);
  }

  /** How far inside a request is. */
  function Rank(p: Phase): nat {
    match p
    case Waiting => 8
    case Locked => 7
    case Measured => 6
    case Unloading => 5
    case Settling => 4
    case Verifying => 3
    case Leaving(_) => 2
    case Done(_) => 1
  }

  predicate StepOf(s: Step, i: nat) {
    match s
    case Arrive(_) => false
    case Acquire(k, _) => k == i
    case Measure(k, _) => k == i
    case Choose(k, _, _, _) => k == i
    case Unload(k, _, _) => k == i
    case Settle(k) => k == i
    case Verify(k, _) => k == i
    case Raise(k) => k == i
    case Leave(k) => k == i
  }

  /** Every step of a request brings it closer to its answer, so it gives the lock back after finitely many of them. */
  lemma OwnStepsDescend(m: Machine, s: Step, i: nat)
    requires Enabled(m, s) && StepOf(s, i)
    ensures i < |m.requests| == |Apply(m, s).requests|
    ensures var r, q := m.requests[i], Apply(m, s).requests[i];
            Rank(q.phase) < Rank(r.phase)
            || (q.phase == r.phase && q.selected == r.selected && r.next < q.next <= |r.selected|)
  {
    hide Chosen, Reading, LoadedAfter;
  }

  lemma {:induction false} RunOn(m: Machine, a: seq<Step>, b: seq<Step>)
    requires RunEnabled(m, a) && RunEnabled(Run(m, a), b)
    ensures RunEnabled(m, a + b) && Run(m, a + b) == Run(Run(m, a), b)
    decreases |a|
  {
    hide Apply, Enabled;
    if a == [] {
      assert a + b == b;
    } else {
      RunOn(Apply(m, a[0]), a[1..], b);
      assert (a + b)[1..] == a[1..] + b;
    }
  }

  lemma OneStep(m: Machine, s: Step)
    requires Enabled(m, s)
    ensures RunEnabled(m, [s]) && Run(m, [s]) == Apply(m, s)
  {
    hide Apply, Enabled;
    var steps, t := [s], Apply(m, s);
    assert steps[0] == s && steps[1..] == [];
    assert RunEnabled(t, []) && Run(t, []) == t;
  }
}
