/**
 The memory of which models have been loaded since when, updated in place, and the choice of models to evict
 (api/state.py, _select_models_to_evict).
 */
module Eviction {
  import opened Wrappers
  import opened Router
  import opened FirstSeen

  /** Drop what is remembered of any name that was not seen. */
  method KeepSeen(m: Since, seen: set<string>) returns (r: Since)
    ensures r == map name | name in m && name in seen :: m[name]
  {
    r := m;
    var names := m.Keys;
    while names != {}
      invariant names <= m.Keys
      invariant r == map name | name in m && (name in seen || name in names) :: m[name]
      decreases |names|
    {
      var name :| name in names;
      names := names - {name};
      if name !in seen {
        r := r - {name};
      }
    }
  }

  /** The state in which only part of a listing has been seen. */
  predicate SeenSoFar(m: Since, entries: seq<Entry>, status: string, now: Time, after: Since, seen: set<string>) {
    && seen == Names(entries, status)
    && after.Keys == m.Keys + seen
    && forall name <- after :: after[name] == if name in m then m[name] else now
  }

  lemma NamesOneMore(entries: seq<Entry>, i: nat, status: string)
    requires i < |entries|
    ensures var e := entries[i];
            Names(entries[..i + 1], status) == Names(entries[..i], status) + (if e.Entry? && e.name != "" && e.status == status then {e.name} else {})
  {
    assert entries[..i + 1] == entries[..i] + [entries[i]];
  }

  function Stamp(after: Since, name: string, now: Time): Since {
    if name in after then after else after[name := now]
  }

  lemma SeenOneMore(m: Since, entries: seq<Entry>, i: nat, status: string, now: Time, after: Since, seen: set<string>)
    requires i < |entries| && SeenSoFar(m, entries[..i], status, now, after, seen)
    ensures var e := entries[i];
            if e.Entry? && e.name != "" && e.status == status
            then SeenSoFar(m, entries[..i + 1], status, now, Stamp(after, e.name, now), seen + {e.name})
                 && Stamp(after, e.name, now)[e.name] == if e.name in m then m[e.name] else now
            else SeenSoFar(m, entries[..i + 1], status, now, after, seen)
  {
    hide Names;
    NamesOneMore(entries, i, status);
  }

  lemma SeenAll(m: Since, entries: seq<Entry>, status: string, now: Time, after: Since, seen: set<string>)
    requires SeenSoFar(m, entries, status, now, after, seen)
    ensures (map name | name in after && name in seen :: after[name]) == SinceFirst(m, Names(entries, status), now)
  {
    hide Names;
  }

  ghost predicate Known(entries: seq<Entry>, m: Since) {
    forall name :: Lists(Some(entries), name, "loaded") ==> name in m
  }

  lemma KnownAfter(m: Since, entries: seq<Entry>, now: Time)
    ensures var all := SinceFirst(m, Names(entries, "loaded"), now);
            Known(entries, all) && forall name <- all :: all[name] == if name in m then m[name] else now
  {
    hide Names, Lists;
  }

  class LoadedMemory {
    var since: Since

    constructor ()
      ensures since == map[]
    {
      since := map[];
    }

    method SelectModelsToEvict(listing: Listing, now: Time, target: int, size: Sizes) returns (selected: seq<Resident>)
      modifies this
      ensures since == LoadedAfter(old(since), Listed(listing, now))
      ensures selected == if listing.None? then [] else Select(Residents(listing.value, since), target, size)
    {
      hide SeenSoFar, Lists, Residents, Select, Names, SinceFirst;
      if listing.None? || listing.value == [] {
        NothingSelected(since, now, target, size);
        since := map[];
        return [];
      }
      var entries := listing.value;
      var loaded: seq<Resident> := [];
      var seen: set<string> := {};
      ghost var all := LoadedAfter(since, Listed(listing, now));
      ghost var before := since;
      KnownAfter(before, entries, now);
      assert entries[..0] == [];
      NothingSeen(before, all, "loaded", now);
      for i := 0 to |entries|
        invariant SeenSoFar(before, entries[..i], "loaded", now, since, seen)
        invariant Known(entries[..i], all) && loaded == Residents(entries[..i], all)
      {
        var e := entries[i];
        SeenOneMore(before, entries, i, "loaded", now, since, seen);
        ResidentsOneMore(entries, i, all);
        if e.Entry? && e.name != "" && e.status == "loaded" {
          hide LoadedAfter;
          seen := seen + {e.name};
          if e.name !in since {
            since := since[e.name := now];
          }
          loaded := loaded + [Resident(since[e.name], e.name)];
        }
      }
      assert entries[..|entries|] == entries;
      SeenAll(before, entries, "loaded", now, since, seen);
      since := KeepSeen(since, seen);
      selected := PickOldest(loaded, target, size);
    }
  }

  lemma NothingSeen(m: Since, all: Since, status: string, now: Time)
    ensures SeenSoFar(m, [], status, now, m, {}) && Known([], all) && Residents([], all) == []
  {
  }

  lemma NothingSelected(m: Since, now: Time, target: int, size: Sizes)
    ensures forall name :: !Lists(Some([]), name, "loaded")
    ensures SinceFirst(m, Names([], "loaded"), now) == map[] && Select(Residents([], map[]), target, size) == []
  {
    SelectShortest(Residents([], map[]), target, size);
    SortedMeaning(Residents([], map[]));
  }

  lemma ResidentsOneMore(entries: seq<Entry>, i: nat, m: Since)
    requires i < |entries| && Known(entries, m)
    ensures Known(entries[..i], m) && Known(entries[..i + 1], m)
    ensures var e := entries[i];
            if e.Entry? && e.name != "" && e.status == "loaded"
            then e.name in m && Residents(entries[..i + 1], m) == Residents(entries[..i], m) + [Resident(m[e.name], e.name)]
            else Residents(entries[..i + 1], m) == Residents(entries[..i], m)
  {
    forall j, name | 0 <= j <= |entries| && Lists(Some(entries[..j]), name, "loaded")
      ensures Lists(Some(entries), name, "loaded")
    {
      var k :| 0 <= k < j && Is(entries[..j][k], name, "loaded");
      assert Is(entries[k], name, "loaded");
    }
    var e := entries[i];
    if e.Entry? && e.name != "" && e.status == "loaded" {
      assert Is(entries[i], e.name, "loaded");
    }
    assert entries[..i + 1][..i] == entries[..i];
  }

  /** Oldest first until the sizes reach the target. */
  method PickOldest(loaded: seq<Resident>, target: int, size: Sizes) returns (selected: seq<Resident>)
    ensures selected == Select(loaded, target, size)
  {
    hide Sorted;
    var sorted := Sorted(loaded);
    selected := [];
    var accumulated := 0;
    for i := 0 to |sorted|
      invariant selected == sorted[..i] && accumulated == Total(selected, size)
      invariant TakeUntil(sorted, 0, target, size) == TakeUntil(sorted, i, target, size)
    {
      if accumulated >= target {
        return;
      }
      selected := selected + [sorted[i]];
      assert selected[..i] == sorted[..i] && selected[i] == sorted[i];
      accumulated := accumulated + SizeOf(sorted[i], size);
    }
  }
}
