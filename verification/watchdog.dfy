/**
 The watchdog of the inference server (api/state.py, _check_llama_server_watchdog). What it observes at each tick is
 a parameter; a tick reads the clock once while it looks at the listing and once after.
 */
module Watchdog {
  import opened Wrappers
  import opened Router
  import opened FirstSeen
  import opened Eviction

  datatype Settings = Settings(timeout: nat, cooldown: nat)

  datatype Tick = Tick(healthy: bool, listing: Listing, polled: Time, now: Time)

  datatype Memory = Memory(unhealthySince: Option<Time>, lastFired: Option<Time>, loadingSince: Since)

  const START := Memory(None, None, map[])

  // ----- One check

  function StaleModel(m: Memory, t: Tick, s: Settings): Option<string> {
    Staleness(t.listing, m.loadingSince, t.polled, s.timeout)
  }

  /** Since when the streak runs once this tick is counted. */
  function StreakStart(m: Memory, t: Tick): Time {
    if m.unhealthySince.Some? then m.unhealthySince.value else t.now
  }

  predicate Wedged(m: Memory, t: Tick, s: Settings) {
    StaleModel(m, t, s).Some? || (!t.healthy && t.now - StreakStart(m, t) >= s.timeout)
  }

  predicate CoolingDown(m: Memory, t: Tick, s: Settings) {
    m.lastFired.Some? && t.now - m.lastFired.value < s.cooldown
  }

  predicate Fires(m: Memory, t: Tick, s: Settings) {
    Wedged(m, t, s) && !CoolingDown(m, t, s)
  }

  function After(m: Memory, t: Tick, s: Settings): Memory {
    if Fires(m, t, s) then Memory(None, Some(t.now), map[])
    else
      Memory(
        if !t.healthy then Some(StreakStart(m, t)) else if StaleModel(m, t, s).None? then None else m.unhealthySince,
        m.lastFired,
        LoadingAfter(m.loadingSince, Listed(t.listing, t.polled)))
  }

  class Guard {
    const settings: Settings
    var unhealthySince: Option<Time>
    var lastFired: Option<Time>
    var loadingSince: Since

    constructor (settings: Settings)
      ensures this.settings == settings && Value() == START
    {
      this.settings := settings;
      unhealthySince, lastFired, loadingSince := None, None, map[];
    }

    function Value(): Memory
      reads this
    {
      Memory(unhealthySince, lastFired, loadingSince)
    }

    method CheckStaleness(listing: Listing, now: Time) returns (stale: Option<string>)
      modifies this`loadingSince
      ensures stale == Staleness(listing, old(loadingSince), now, settings.timeout)
      ensures loadingSince == LoadingAfter(old(loadingSince), Listed(listing, now))
    {
      stale := None;
      if listing.None? {
        return;
      }
      var entries := listing.value;
      var seen: set<string> := {};
      ghost var before := loadingSince;
      ghost var all := LoadingAfter(before, Listed(listing, now));
      assert entries[..0] == [];
      for i := 0 to |entries|
        invariant SeenSoFar(before, entries[..i], "loading", now, loadingSince, seen)
        invariant if stale.Some? then FirstStuck(entries, all, now, settings.timeout) == stale
                  else FirstStuck(entries, all, now, settings.timeout) == FirstStuck(entries[i..], all, now, settings.timeout)
      {
        var e := entries[i];
        SeenOneMore(before, entries, i, "loading", now, loadingSince, seen);
        LoadingKnown(before, entries, i, now);
        assert entries[i..][0] == e && entries[i..][1..] == entries[i + 1..];
        if e.Entry? && e.name != "" && e.status == "loading" {
          hide SeenSoFar, LoadingAfter;
          seen := seen + {e.name};
          if e.name !in loadingSince {
            loadingSince := loadingSince[e.name := now];
          }
          if stale.None? && now - loadingSince[e.name] > settings.timeout {
            stale := Some(e.name);
          }
        }
      }
      assert entries[..|entries|] == entries;
      SeenAll(before, entries, "loading", now, loadingSince, seen);
      loadingSince := KeepSeen(loadingSince, seen);
    }

    /** One check; the answer says whether it forced a recovery. */
    method Check(t: Tick) returns (fired: bool)
      modifies this
      ensures fired == Fires(old(Value()), t, settings) && Value() == After(old(Value()), t, settings)
    {
      hide Staleness, LoadingAfter;
      var stale := CheckStaleness(t.listing, t.polled);
      if t.healthy && stale.None? {
        unhealthySince := None;
        return false;
      }
      var duration: int;
      if !t.healthy {
        if unhealthySince.None? {
          unhealthySince := Some(t.now);
        }
        duration := t.now - unhealthySince.value;
      } else {
        duration := settings.timeout;
      }
      if stale.None? && duration < settings.timeout {
        return false;
      }
      if lastFired.Some? && t.now - lastFired.value < settings.cooldown {
        return false;
      }
      lastFired := Some(t.now);
      unhealthySince := None;
      loadingSince := map[];
      return true;
    }
  }

  lemma LoadingKnown(m: Since, entries: seq<Entry>, i: nat, now: Time)
    requires i < |entries|
    ensures var e := entries[i];
            var all := SinceFirst(m, Names(entries, "loading"), now);
            e.Entry? && e.name != "" && e.status == "loading" ==>
              e.name in all && all[e.name] == if e.name in m then m[e.name] else now
  {
  }

  // ----- Runs

  function MemoryAfter(ticks: seq<Tick>, n: nat, s: Settings): Memory
    requires n <= |ticks|
  {
    if n == 0 then START else After(MemoryAfter(ticks, n - 1, s), ticks[n - 1], s)
  }

  predicate FiresAt(ticks: seq<Tick>, n: nat, s: Settings)
    requires n < |ticks|
  {
    Fires(MemoryAfter(ticks, n, s), ticks[n], s)
  }

  /** The clock never goes back. */
  predicate Clocked(ticks: seq<Tick>) {
    && (forall i :: 0 <= i < |ticks| ==> ticks[i].polled <= ticks[i].now)
    && (forall i, j :: 0 <= i < j < |ticks| ==> ticks[i].now <= ticks[j].polled)
  }

  /** All that is remembered dates from a time or later. */
  predicate DatesFrom(m: Memory, time: Time) {
    && (m.unhealthySince.Some? ==> time <= m.unhealthySince.value)
    && (m.lastFired.Some? ==> time <= m.lastFired.value)
    && forall name <- m.loadingSince :: time <= m.loadingSince[name]
  }

  lemma DatesOn(m: Memory, t: Tick, time: Time, s: Settings)
    requires DatesFrom(m, time) && time <= t.polled <= t.now
    ensures DatesFrom(After(m, t, s), time)
  {
  }

  /** A recovery needs the whole timeout and the whole cooldown since the time everything remembered dates from. */
  lemma FiresLate(m: Memory, t: Tick, time: Time, s: Settings)
    requires DatesFrom(m, time) && m.lastFired.Some? && time <= t.polled <= t.now && Fires(m, t, s)
    ensures t.now - m.lastFired.value >= s.cooldown
    ensures t.now - time >= s.timeout
  {
    if StaleModel(m, t, s).Some? {
      StuckDates(t.listing.value, LoadingAfter(m.loadingSince, Listed(t.listing, t.polled)), t.polled, s.timeout, time);
    }
  }

  lemma {:induction false} StuckDates(entries: seq<Entry>, m: Since, now: Time, timeout: nat, time: Time)
    requires FirstStuck(entries, m, now, timeout).Some? && forall name <- m :: time <= m[name]
    ensures now - time >= timeout
    decreases |entries|
  {
    if !Stuck(entries[0], m, now, timeout) {
      StuckDates(entries[1..], m, now, timeout, time);
    }
  }

  lemma {:induction false} DatesFromFiring(ticks: seq<Tick>, i: nat, j: nat, s: Settings)
    requires Clocked(ticks) && i < j <= |ticks| && FiresAt(ticks, i, s)
    ensures DatesFrom(MemoryAfter(ticks, j, s), ticks[i].now) && MemoryAfter(ticks, j, s).lastFired.Some?
    decreases j
  {
    hide Fires, DatesFrom, StaleModel;
    if j == i + 1 {
      FreshDates(MemoryAfter(ticks, i, s), ticks[i], s);
    } else {
      DatesFromFiring(ticks, i, j - 1, s);
      DatesOn(MemoryAfter(ticks, j - 1, s), ticks[j - 1], ticks[i].now, s);
    }
  }

  lemma FreshDates(m: Memory, t: Tick, s: Settings)
    requires Fires(m, t, s)
    ensures DatesFrom(After(m, t, s), t.now) && After(m, t, s).lastFired.Some?
  {
  }

  /** Any two recoveries are at least the timeout and at least the cooldown apart. */
  lemma RecoveriesApart(ticks: seq<Tick>, i: nat, j: nat, s: Settings)
    requires Clocked(ticks) && i < j < |ticks| && FiresAt(ticks, i, s) && FiresAt(ticks, j, s)
    ensures ticks[j].now - ticks[i].now >= s.timeout && ticks[j].now - ticks[i].now >= s.cooldown
  {
    hide MemoryAfter, Fires;
    DatesFromFiring(ticks, i, j, s);
    FiresLate(MemoryAfter(ticks, j, s), ticks[j], ticks[i].now, s);
  }

  // ----- A recovery comes in time

  /** While every tick is unhealthy and nothing fires, the streak keeps its start and the last firing stands. */
  lemma {:induction false} StreakRuns(ticks: seq<Tick>, k: nat, n: nat, s: Settings)
    requires Clocked(ticks) && k < n <= |ticks|
    requires forall i :: k <= i < n ==> !ticks[i].healthy && !FiresAt(ticks, i, s)
    ensures var m := MemoryAfter(ticks, n, s);
            && m.lastFired == MemoryAfter(ticks, k, s).lastFired
            && m.unhealthySince == Some(StreakStart(MemoryAfter(ticks, k, s), ticks[k]))
    decreases n
  {
    hide Fires, StaleModel;
    if n > k + 1 {
      StreakRuns(ticks, k, n - 1, s);
    }
  }

  lemma {:induction false} StreakInPast(ticks: seq<Tick>, n: nat, s: Settings)
    requires Clocked(ticks) && n < |ticks|
    ensures StreakStart(MemoryAfter(ticks, n, s), ticks[n]) <= ticks[n].now
    decreases n
  {
    hide Fires, StaleModel;
    if n > 0 {
      StreakInPast(ticks, n - 1, s);
    }
  }

  /** Unhealthy from tick k on: a recovery comes no later than the first tick at which both waits are over. */
  lemma RecoveryInTime(ticks: seq<Tick>, k: nat, n: nat, s: Settings)
    requires Clocked(ticks) && k <= n < |ticks|
    requires forall i :: k <= i <= n ==> !ticks[i].healthy
    requires ticks[n].now - ticks[k].now >= s.timeout
    requires var fired := MemoryAfter(ticks, k, s).lastFired;
             fired.Some? ==> ticks[n].now - fired.value >= s.cooldown
    ensures exists j :: k <= j <= n && FiresAt(ticks, j, s)
  {
    hide StaleModel, MemoryAfter;
    StreakInPast(ticks, k, s);
    if forall i :: k <= i < n ==> !FiresAt(ticks, i, s) {
      if k < n {
        StreakRuns(ticks, k, n, s);
      }
      assert FiresAt(ticks, n, s);
    }
  }

  /** While a model is listed as loading and nothing fires, it is remembered from its first tick. */
  lemma {:induction false} LoadingRuns(ticks: seq<Tick>, k: nat, n: nat, name: string, s: Settings)
    requires Clocked(ticks) && k < n <= |ticks|
    requires forall i :: k <= i < n ==> !FiresAt(ticks, i, s) && (ticks[i].listing.None? || Lists(ticks[i].listing, name, "loading"))
    requires ticks[k].listing.Some?
    ensures var m := MemoryAfter(ticks, n, s);
            && m.lastFired == MemoryAfter(ticks, k, s).lastFired
            && name in m.loadingSince && m.loadingSince[name] <= ticks[k].polled
    decreases n
  {
    hide Fires, StaleModel, Lists;
    if n > k + 1 {
      LoadingRuns(ticks, k, n - 1, name, s);
    } else {
      LoadingInPast(ticks, k, name, s);
    }
  }

  lemma {:induction false} LoadingInPast(ticks: seq<Tick>, n: nat, name: string, s: Settings)
    requires Clocked(ticks) && n < |ticks|
    ensures name in MemoryAfter(ticks, n, s).loadingSince ==> MemoryAfter(ticks, n, s).loadingSince[name] <= ticks[n].polled
    decreases n
  {
    hide Fires, StaleModel, Lists;
    if n > 0 {
      LoadingInPast(ticks, n - 1, name, s);
    }
  }

  lemma StuckFires(m: Memory, t: Tick, name: string, s: Settings)
    requires Lists(t.listing, name, "loading") && !CoolingDown(m, t, s)
    requires name in m.loadingSince && t.polled - m.loadingSince[name] > s.timeout
    ensures Fires(m, t, s)
  {
    var entries := t.listing.value;
    var after := LoadingAfter(m.loadingSince, Listed(t.listing, t.polled));
    var i :| 0 <= i < |entries| && Is(entries[i], name, "loading");
    assert Stuck(entries[i], after, t.polled, s.timeout);
    assert StuckAs(entries, name, after, t.polled, s.timeout);
    FirstStuckMeaning(entries, after, t.polled, s.timeout);
  }

  /**
   The same for a model that never stops loading, whatever the health says: unanswered listings in between do not
   delay the recovery.
   */
  lemma StuckModelInTime(ticks: seq<Tick>, k: nat, n: nat, name: string, s: Settings)
    requires Clocked(ticks) && k < n < |ticks|
    requires forall i :: k <= i <= n ==> ticks[i].listing.None? || Lists(ticks[i].listing, name, "loading")
    requires ticks[k].listing.Some? && ticks[n].listing.Some?
    requires ticks[n].polled - ticks[k].polled > s.timeout
    requires var fired := MemoryAfter(ticks, k, s).lastFired;
             fired.Some? ==> ticks[n].now - fired.value >= s.cooldown
    ensures exists j :: k <= j <= n && FiresAt(ticks, j, s)
  {
    hide Fires, StaleModel, MemoryAfter, Lists;
    if forall i :: k <= i < n ==> !FiresAt(ticks, i, s) {
      LoadingRuns(ticks, k, n, name, s);
      StuckFires(MemoryAfter(ticks, n, s), ticks[n], name, s);
      assert FiresAt(ticks, n, s);
    }
  }

  // ----- No recovery without cause

  /** What a tick says about the streak: a recovery or a wholly good tick ends it; a stale model at good health leaves it. */
  function SightOf(m: Memory, t: Tick, s: Settings): Moment {
    Moment(
      if Fires(m, t, s) || (t.healthy && StaleModel(m, t, s).None?) then Gone
      else if !t.healthy then Shown
      else Neutral, t.now)
  }

  function HealthSight(ticks: seq<Tick>, i: nat, s: Settings): Moment
    requires i < |ticks|
  {
    SightOf(MemoryAfter(ticks, i, s), ticks[i], s)
  }

  function HealthHistory(ticks: seq<Tick>, n: nat, s: Settings): (h: seq<Moment>)
    requires n <= |ticks|
    ensures |h| == n && forall i :: 0 <= i < n ==> h[i] == HealthSight(ticks, i, s)
  {
    if n == 0 then [] else HealthHistory(ticks, n - 1, s) + [HealthSight(ticks, n - 1, s)]
  }

  lemma StreakStep(m: Memory, t: Tick, s: Settings)
    ensures After(m, t, s).unhealthySince == Track(m.unhealthySince, SightOf(m, t, s))
  {
    hide Fires, StaleModel;
  }

  lemma NothingTracked()
    ensures Tracked([]) == None
  {
  }

  lemma TrackedOneMore(h: seq<Moment>, m: Moment)
    ensures Tracked(h + [m]) == Track(Tracked(h), m)
  {
    assert (h + [m])[..|h|] == h;
  }

  lemma {:induction false} StreakTracks(ticks: seq<Tick>, n: nat, s: Settings)
    requires n <= |ticks|
    ensures MemoryAfter(ticks, n, s).unhealthySince == Tracked(HealthHistory(ticks, n, s))
    decreases n
  {
    hide SightOf, After, Track, Tracked;
    if n > 0 {
      StreakTracks(ticks, n - 1, s);
      StreakStep(MemoryAfter(ticks, n - 1, s), ticks[n - 1], s);
      TrackedOneMore(HealthHistory(ticks, n - 1, s), HealthSight(ticks, n - 1, s));
    } else {
      NothingTracked();
    }
  }

  /** The streak remembered is the one of the whole history of ticks. */
  lemma StreakIsHistory(ticks: seq<Tick>, n: nat, s: Settings)
    requires n <= |ticks|
    ensures var since, h := MemoryAfter(ticks, n, s).unhealthySince, HealthHistory(ticks, n, s);
            && (since.None? <==> forall k :: !OpensStreak(h, k))
            && forall k :: OpensStreak(h, k) ==> since == Some(h[k].now)
  {
    hide MemoryAfter, HealthHistory, OpensStreak, Tracked;
    StreakTracks(ticks, n, s);
    TrackedIsStreak(HealthHistory(ticks, n, s));
  }

  /** The loading times are those of the history of listings and recoveries. */
  function Events(ticks: seq<Tick>, n: nat, s: Settings): seq<Event>
    requires n <= |ticks|
  {
    if n == 0 then []
    else
      Events(ticks, n - 1, s) + [Listed(ticks[n - 1].listing, ticks[n - 1].polled)]
      + (if FiresAt(ticks, n - 1, s) then [Recovered] else [])
  }

  lemma {:induction false} LoadingIsHistory(ticks: seq<Tick>, n: nat, s: Settings)
    requires n <= |ticks|
    ensures MemoryAfter(ticks, n, s).loadingSince == Loading(Events(ticks, n, s))
    decreases n
  {
    hide Fires, StaleModel, LoadingAfter;
    if n > 0 {
      LoadingIsHistory(ticks, n - 1, s);
      var before := Events(ticks, n - 1, s);
      var listed := before + [Listed(ticks[n - 1].listing, ticks[n - 1].polled)];
      assert listed[..|before|] == before;
      if FiresAt(ticks, n - 1, s) {
        var all := listed + [Recovered];
        assert all[..|listed|] == listed;
        Forgotten(Loading(listed));
      } else {
        assert listed + [] == listed;
      }
    }
  }

  lemma Forgotten(m: Since)
    ensures LoadingAfter(m, Recovered) == map[]
  {
  }

  /** A healthy tick keeps the streak exactly if a stale model is seen and no recovery comes of it. */
  lemma HealthyKeepsStreak(m: Memory, t: Tick, s: Settings)
    requires t.healthy && m.unhealthySince.Some?
    ensures After(m, t, s).unhealthySince.Some? <==> StaleModel(m, t, s).Some? && CoolingDown(m, t, s)
  {
  }

  /**
   So a healthy tick need not end a streak: here the server is found unhealthy at 12, healthy at 24 during the
   cooldown with a model stuck loading, and one unhealthy tick at 31 forces a recovery.
   */
  lemma StreakOutlivesHealth()
    ensures var stuck := Some([Entry("m", "loading", None)]);
            var ticks := [Tick(true, stuck, 0, 0), Tick(true, stuck, 11, 11), Tick(false, stuck, 12, 12),
                          Tick(true, stuck, 24, 24), Tick(false, Some([]), 31, 31)];
            var s := Settings(10, 20);
            && FiresAt(ticks, 1, s) && !FiresAt(ticks, 2, s) && !FiresAt(ticks, 3, s)
            && MemoryAfter(ticks, 4, s).unhealthySince == Some(12) && FiresAt(ticks, 4, s)
  {
  }
}
