/** When the watchdog forces a recovery, told by the ticks, the listings and the recoveries before. */
module WatchdogCauses {
  import opened Wrappers
  import opened Router
  import opened FirstSeen
  import opened Watchdog

  // ----- What a cause is

  /** From tick k to tick n the model is listed as loading, but for listings unanswered, and nothing is recovered in between. */
  predicate LoadsFrom(ticks: seq<Tick>, k: nat, n: nat, name: string, s: Settings)
    requires k <= n <= |ticks|
  {
    && k < |ticks| && Lists(ticks[k].listing, name, "loading")
    && forall i :: k <= i < n ==> (ticks[i].listing.None? || Lists(ticks[i].listing, name, "loading")) && !FiresAt(ticks, i, s)
  }

  /** A model listed as loading at tick n has been so for longer than the timeout. */
  predicate LoadsTooLong(ticks: seq<Tick>, n: nat, name: string, s: Settings)
    requires n < |ticks|
  {
    && Lists(ticks[n].listing, name, "loading")
    && exists k: nat :: k <= n && LoadsFrom(ticks, k, n, name, s) && ticks[n].polled - ticks[k].polled > s.timeout
  }

  ghost predicate SomeLoadsTooLong(ticks: seq<Tick>, n: nat, s: Settings)
    requires n < |ticks|
  {
    exists name :: LoadsTooLong(ticks, n, name, s)
  }

  ghost predicate WhollyGood(ticks: seq<Tick>, n: nat, s: Settings)
    requires n < |ticks|
  {
    ticks[n].healthy && !SomeLoadsTooLong(ticks, n, s)
  }

  /** Tick k is unhealthy; until tick n no tick is wholly good and nothing is recovered. */
  ghost predicate UnhealthyFrom(ticks: seq<Tick>, k: nat, n: nat, s: Settings)
    requires k <= n <= |ticks|
  {
    && k < |ticks| && !ticks[k].healthy
    && (forall i :: k <= i < n ==> !FiresAt(ticks, i, s))
    && forall i :: k < i < n ==> !WhollyGood(ticks, i, s)
  }

  ghost predicate UnhealthyTooLong(ticks: seq<Tick>, n: nat, s: Settings)
    requires n < |ticks|
  {
    !ticks[n].healthy && exists k: nat :: k <= n && UnhealthyFrom(ticks, k, n, s) && ticks[n].now - ticks[k].now >= s.timeout
  }

  predicate RecoveredWithin(ticks: seq<Tick>, n: nat, s: Settings)
    requires n < |ticks|
  {
    exists j :: 0 <= j < n && FiresAt(ticks, j, s) && ticks[n].now - ticks[j].now < s.cooldown
  }

  // ----- The memory tells these

  lemma {:induction false} LastFiring(ticks: seq<Tick>, n: nat, s: Settings)
    requires Clocked(ticks) && n <= |ticks|
    ensures var last := MemoryAfter(ticks, n, s).lastFired;
            && (last.Some? ==> exists j :: 0 <= j < n && FiresAt(ticks, j, s) && last.value == ticks[j].now)
            && forall j :: 0 <= j < n && FiresAt(ticks, j, s) ==> last.Some? && ticks[j].now <= last.value
    decreases n
  {
    hide Fires, StaleModel, LoadingAfter;
    if n > 0 {
      LastFiring(ticks, n - 1, s);
      assert FiresAt(ticks, n - 1, s) <==> Fires(MemoryAfter(ticks, n - 1, s), ticks[n - 1], s);
    }
  }

  lemma CooldownExactly(ticks: seq<Tick>, n: nat, s: Settings)
    requires Clocked(ticks) && n < |ticks|
    ensures CoolingDown(MemoryAfter(ticks, n, s), ticks[n], s) <==> RecoveredWithin(ticks, n, s)
  {
    hide MemoryAfter, Fires;
    LastFiring(ticks, n, s);
  }

  /** One tick's effect on what is remembered of one model. */
  lemma LoadingStepOf(m: Memory, t: Tick, name: string, s: Settings)
    ensures var after := After(m, t, s).loadingSince;
            && (Fires(m, t, s) ==> name !in after)
            && (!Fires(m, t, s) && t.listing.None? ==> Get(after, name) == Get(m.loadingSince, name))
            && (!Fires(m, t, s) && t.listing.Some? ==>
                 Get(after, name) == (if !Lists(t.listing, name, "loading") then None
                                      else if name in m.loadingSince then Some(m.loadingSince[name]) else Some(t.polled)))
  {
    hide Fires, StaleModel, Lists;
    LoadingStep(m.loadingSince, Listed(t.listing, t.polled), name);
  }

  lemma {:induction false} RememberedLoads(ticks: seq<Tick>, n: nat, name: string, s: Settings)
    requires n <= |ticks| && name in MemoryAfter(ticks, n, s).loadingSince
    ensures exists k: nat :: k < n && LoadsFrom(ticks, k, n, name, s) && MemoryAfter(ticks, n, s).loadingSince[name] == ticks[k].polled
    decreases n
  {
    hide Fires, StaleModel, Lists, LoadingAfter, After;
    if n > 0 {
      var m, t := MemoryAfter(ticks, n - 1, s), ticks[n - 1];
      LoadingStepOf(m, t, name, s);
      assert FiresAt(ticks, n - 1, s) <==> Fires(m, t, s);
      if name in m.loadingSince {
        RememberedLoads(ticks, n - 1, name, s);
        var k: nat :| k < n - 1 && LoadsFrom(ticks, k, n - 1, name, s) && m.loadingSince[name] == ticks[k].polled;
        assert LoadsFrom(ticks, k, n, name, s);
      } else {
        assert LoadsFrom(ticks, n - 1, n, name, s);
      }
    }
  }

  /** A model that loads from tick k on is remembered from then or earlier. */
  lemma LoadsIsRemembered(ticks: seq<Tick>, k: nat, n: nat, name: string, s: Settings)
    requires Clocked(ticks) && k < n < |ticks| && LoadsFrom(ticks, k, n, name, s)
    ensures name in MemoryAfter(ticks, n, s).loadingSince && MemoryAfter(ticks, n, s).loadingSince[name] <= ticks[k].polled
  {
    hide FiresAt;
    LoadingRuns(ticks, k, n, name, s);
  }

  lemma StuckIsStale(m: Memory, t: Tick, s: Settings)
    ensures StaleModel(m, t, s).Some? <==> exists name ::
              Lists(t.listing, name, "loading") && name in m.loadingSince && t.polled - m.loadingSince[name] > s.timeout
  {
    var after := LoadingAfter(m.loadingSince, Listed(t.listing, t.polled));
    if t.listing.Some? {
      var entries := t.listing.value;
      FirstStuckMeaning(entries, after, t.polled, s.timeout);
      if name :| StuckAs(entries, name, after, t.polled, s.timeout) {
        var i :| 0 <= i < |entries| && Stuck(entries[i], after, t.polled, s.timeout) && entries[i].name == name;
        assert Is(entries[i], name, "loading");
        LoadingStep(m.loadingSince, Listed(t.listing, t.polled), name);
        assert Lists(t.listing, name, "loading") && name in m.loadingSince;
      }
      if name :| Lists(t.listing, name, "loading") && name in m.loadingSince && t.polled - m.loadingSince[name] > s.timeout {
        var i :| 0 <= i < |entries| && Is(entries[i], name, "loading");
        assert Stuck(entries[i], after, t.polled, s.timeout);
        assert StuckAs(entries, name, after, t.polled, s.timeout);
      }
    }
  }

  lemma StaleExactly(ticks: seq<Tick>, n: nat, s: Settings)
    requires Clocked(ticks) && n < |ticks|
    ensures StaleModel(MemoryAfter(ticks, n, s), ticks[n], s).Some? <==> SomeLoadsTooLong(ticks, n, s)
  {
    hide MemoryAfter, StaleModel, Lists, FiresAt;
    var m := MemoryAfter(ticks, n, s);
    StuckIsStale(m, ticks[n], s);
    if name :| Lists(ticks[n].listing, name, "loading") && name in m.loadingSince && ticks[n].polled - m.loadingSince[name] > s.timeout {
      RememberedLoads(ticks, n, name, s);
      var k: nat :| k < n && LoadsFrom(ticks, k, n, name, s) && m.loadingSince[name] == ticks[k].polled;
      assert LoadsTooLong(ticks, n, name, s);
    }
    if name :| LoadsTooLong(ticks, n, name, s) {
      var k: nat :| k <= n && LoadsFrom(ticks, k, n, name, s) && ticks[n].polled - ticks[k].polled > s.timeout;
      LoadsIsRemembered(ticks, k, n, name, s);
    }
  }

  lemma StreakStepOf(m: Memory, t: Tick, s: Settings)
    ensures After(m, t, s).unhealthySince == (
              if Fires(m, t, s) || (t.healthy && StaleModel(m, t, s).None?) then None
              else if !t.healthy && m.unhealthySince.None? then Some(t.now)
              else m.unhealthySince)
  {
    hide Fires, StaleModel;
  }

  lemma {:induction false} RememberedUnhealthy(ticks: seq<Tick>, n: nat, s: Settings)
    requires Clocked(ticks) && n <= |ticks| && MemoryAfter(ticks, n, s).unhealthySince.Some?
    ensures exists k: nat :: k < n && UnhealthyFrom(ticks, k, n, s) && MemoryAfter(ticks, n, s).unhealthySince.value == ticks[k].now
    decreases n
  {
    hide Fires, StaleModel, After, SomeLoadsTooLong;
    if n > 0 {
      var m, t := MemoryAfter(ticks, n - 1, s), ticks[n - 1];
      StreakStepOf(m, t, s);
      StaleExactly(ticks, n - 1, s);
      assert FiresAt(ticks, n - 1, s) <==> Fires(m, t, s);
      if m.unhealthySince.Some? {
        RememberedUnhealthy(ticks, n - 1, s);
        var k: nat :| k < n - 1 && UnhealthyFrom(ticks, k, n - 1, s) && m.unhealthySince.value == ticks[k].now;
        assert UnhealthyFrom(ticks, k, n, s);
      } else {
        assert UnhealthyFrom(ticks, n - 1, n, s);
      }
    }
  }

  lemma {:induction false} UnhealthyIsRemembered(ticks: seq<Tick>, k: nat, n: nat, s: Settings)
    requires Clocked(ticks) && k < n <= |ticks| && UnhealthyFrom(ticks, k, n, s)
    ensures var since := MemoryAfter(ticks, n, s).unhealthySince;
            since.Some? && since.value <= ticks[k].now
    decreases n
  {
    hide Fires, StaleModel, After, SomeLoadsTooLong;
    var m, t := MemoryAfter(ticks, n - 1, s), ticks[n - 1];
    StreakStepOf(m, t, s);
    StaleExactly(ticks, n - 1, s);
    assert FiresAt(ticks, n - 1, s) <==> Fires(m, t, s);
    if k < n - 1 {
      assert UnhealthyFrom(ticks, k, n - 1, s);
      UnhealthyIsRemembered(ticks, k, n - 1, s);
      assert !WhollyGood(ticks, n - 1, s);
    } else {
      StreakInPast(ticks, n - 1, s);
    }
  }

  lemma StreakExactly(ticks: seq<Tick>, n: nat, s: Settings)
    requires Clocked(ticks) && n < |ticks| && !ticks[n].healthy
    ensures ticks[n].now - StreakStart(MemoryAfter(ticks, n, s), ticks[n]) >= s.timeout <==> UnhealthyTooLong(ticks, n, s)
  {
    hide MemoryAfter, WhollyGood, FiresAt;
    var m := MemoryAfter(ticks, n, s);
    assert UnhealthyFrom(ticks, n, n, s);
    if m.unhealthySince.Some? {
      RememberedUnhealthy(ticks, n, s);
    }
    if UnhealthyTooLong(ticks, n, s) {
      var k: nat :| k <= n && UnhealthyFrom(ticks, k, n, s) && ticks[n].now - ticks[k].now >= s.timeout;
      if k < n {
        UnhealthyIsRemembered(ticks, k, n, s);
      } else if m.unhealthySince.Some? {
        StreakInPast(ticks, n, s);
      }
    }
  }

  // ----- No recovery without cause

  /**
   A recovery is forced exactly if none was within the cooldown, and a model has been loading for longer than the timeout
   or the server has been unhealthy for the timeout and still is.
   */
  lemma FiresExactly(ticks: seq<Tick>, n: nat, s: Settings)
    requires Clocked(ticks) && n < |ticks|
    ensures FiresAt(ticks, n, s) <==>
            !RecoveredWithin(ticks, n, s) && (SomeLoadsTooLong(ticks, n, s) || UnhealthyTooLong(ticks, n, s))
  {
    hide MemoryAfter, StaleModel, RecoveredWithin, SomeLoadsTooLong, UnhealthyFrom;
    CooldownExactly(ticks, n, s);
    StaleExactly(ticks, n, s);
    if !ticks[n].healthy {
      StreakExactly(ticks, n, s);
    }
  }

  /** A wholly good tick forces nothing and ends the streak. */
  lemma GoodTickIsQuiet(ticks: seq<Tick>, n: nat, s: Settings)
    requires Clocked(ticks) && n < |ticks| && WhollyGood(ticks, n, s)
    ensures !FiresAt(ticks, n, s) && MemoryAfter(ticks, n + 1, s).unhealthySince.None?
  {
    hide StaleModel, SomeLoadsTooLong;
    StaleExactly(ticks, n, s);
  }

  /** A server that is healthy again after ten seconds is left alone. */
  lemma ComesUpInTime()
    ensures var ticks := [Tick(false, Some([]), 0, 0), Tick(true, Some([]), 10, 10)];
            !FiresAt(ticks, 0, Settings(10, 20)) && !FiresAt(ticks, 1, Settings(10, 20))
  {
  }
}
