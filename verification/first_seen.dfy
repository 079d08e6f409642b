/**
 When each model was first seen in its current state, kept from one listing to the next, and the eviction order
 drawn from it (api/state.py, _select_models_to_evict and _check_llama_server_model_load_staleness).
 */
module FirstSeen {
  import opened Wrappers
  import opened Router

  // ----- One model over time

  datatype Sight = Shown | Neutral | Gone

  datatype Moment = Moment(sight: Sight, now: Time)

  function Track(since: Option<Time>, m: Moment): Option<Time> {
    match m.sight
    case Shown => if since.Some? then since else Some(m.now)
    case Neutral => since
    case Gone => None
  }

  function Tracked(history: seq<Moment>): Option<Time> {
    if history == [] then None else Track(Tracked(history[..|history| - 1]), history[|history| - 1])
  }

  /** Position k opens the streak the history ends in: seen there, never gone since, and not yet seen since it was last gone. */
  predicate OpensStreak(history: seq<Moment>, k: int) {
    && 0 <= k < |history| && history[k].sight.Shown?
    && (forall i :: k < i < |history| ==> !history[i].sight.Gone?)
    && (forall j :: 0 <= j < k && history[j].sight.Shown? ==> exists i :: j < i < k && history[i].sight.Gone?)
  }

  lemma {:induction false} TrackedOpens(history: seq<Moment>)
    ensures Tracked(history).Some? ==> exists k :: OpensStreak(history, k) && Tracked(history) == Some(history[k].now)
    ensures Tracked(history).None? ==> forall k: nat :: k < |history| && history[k].sight.Shown? ==>
              exists i :: k < i < |history| && history[i].sight.Gone?
    decreases |history|
  {
    if history != [] {
      var last := |history| - 1;
      var before := history[..last];
      TrackedOpens(before);
      if Tracked(before).Some? {
        var k :| OpensStreak(before, k) && Tracked(before) == Some(before[k].now);
        if history[last].sight.Gone? {
          assert Tracked(history).None?;
        } else {
          forall j | 0 <= j < k && history[j].sight.Shown?
            ensures exists i :: j < i < k && history[i].sight.Gone?
          {
            var i :| j < i < k && before[i].sight.Gone?;
            assert history[i].sight.Gone?;
          }
          assert OpensStreak(history, k);
        }
      } else {
        forall j: nat | j < last && history[j].sight.Shown?
          ensures exists i :: j < i < last && history[i].sight.Gone?
        {
          assert before[j].sight.Shown?;
          var i :| j < i < last && before[i].sight.Gone?;
          assert history[i].sight.Gone?;
        }
        if history[last].sight.Shown? {
          assert OpensStreak(history, last);
        }
      }
    }
  }

  lemma OneOpening(history: seq<Moment>, k: int, l: int)
    requires OpensStreak(history, k) && OpensStreak(history, l)
    ensures k == l
  {
  }

  /** What is remembered is when the current streak opened; nothing is remembered exactly if there is none. */
  lemma TrackedIsStreak(history: seq<Moment>)
    ensures Tracked(history).None? <==> forall k :: !OpensStreak(history, k)
    ensures forall k :: OpensStreak(history, k) ==> Tracked(history) == Some(history[k].now)
  {
    hide Tracked;
    TrackedOpens(history);
    forall k | OpensStreak(history, k)
      ensures Tracked(history) == Some(history[k].now)
    {
      if Tracked(history).Some? {
        var l :| OpensStreak(history, l) && Tracked(history) == Some(history[l].now);
        OneOpening(history, k, l);
      }
    }
  }

  // ----- All models at once

  type Since = map<string, Time>

  /** A listing, or a recovery that forgets what was loading. */
  datatype Event = Listed(listing: Listing, now: Time) | Recovered

  function Get(m: Since, name: string): Option<Time> {
    if name in m then Some(m[name]) else None
  }

  function LoadedSight(e: Event, name: string): Moment {
    match e
    case Recovered => Moment(Neutral, 0)
    case Listed(listing, now) => Moment(if Lists(listing, name, "loaded") then Shown else Gone, now)
  }

  function LoadingSight(e: Event, name: string): Moment {
    match e
    case Recovered => Moment(Gone, 0)
    case Listed(listing, now) =>
      Moment(if listing.None? then Neutral else if Lists(listing, name, "loading") then Shown else Gone, now)
  }

  function LoadedHistory(events: seq<Event>, name: string): (h: seq<Moment>)
    ensures |h| == |events| && forall i :: 0 <= i < |events| ==> h[i] == LoadedSight(events[i], name)
  {
    seq(|events|, i requires 0 <= i < |events| => LoadedSight(events[i], name))
  }

  function LoadingHistory(events: seq<Event>, name: string): (h: seq<Moment>)
    ensures |h| == |events| && forall i :: 0 <= i < |events| ==> h[i] == LoadingSight(events[i], name)
  {
    seq(|events|, i requires 0 <= i < |events| => LoadingSight(events[i], name))
  }

  function Names(entries: seq<Entry>, status: string): (names: set<string>)
    ensures forall name :: name in names <==> Lists(Some(entries), name, status)
  {
    set e <- entries | e.Entry? && e.name != "" && e.status == status :: e.name
  }

  function SinceFirst(m: Since, names: set<string>, now: Time): Since {
    map name <- names :: if name in m then m[name] else now
  }

  function LoadedAfter(m: Since, e: Event): Since {
    match e
    case Recovered => m
    case Listed(listing, now) => if listing.None? then map[] else SinceFirst(m, Names(listing.value, "loaded"), now)
  }

  function LoadingAfter(m: Since, e: Event): Since {
    match e
    case Recovered => map[]
    case Listed(listing, now) => if listing.None? then m else SinceFirst(m, Names(listing.value, "loading"), now)
  }

  function Loaded(events: seq<Event>): Since {
    if events == [] then map[] else LoadedAfter(Loaded(events[..|events| - 1]), events[|events| - 1])
  }

  function Loading(events: seq<Event>): Since {
    if events == [] then map[] else LoadingAfter(Loading(events[..|events| - 1]), events[|events| - 1])
  }

  lemma {:induction false} LoadedTracks(events: seq<Event>, name: string)
    ensures Get(Loaded(events), name) == Tracked(LoadedHistory(events, name))
    decreases |events|
  {
    hide LoadedSight, Lists, LoadedHistory;
    if events != [] {
      var before, last := events[..|events| - 1], events[|events| - 1];
      LoadedTracks(before, name);
      LoadedStep(Loaded(before), last, name);
      assert LoadedHistory(events, name)[..|events| - 1] == LoadedHistory(before, name);
    }
  }

  lemma LoadedStep(m: Since, e: Event, name: string)
    ensures Get(LoadedAfter(m, e), name) == Track(Get(m, name), LoadedSight(e, name))
  {
  }

  lemma {:induction false} LoadingTracks(events: seq<Event>, name: string)
    ensures Get(Loading(events), name) == Tracked(LoadingHistory(events, name))
    decreases |events|
  {
    hide LoadingSight, Lists, LoadingHistory;
    if events != [] {
      var before, last := events[..|events| - 1], events[|events| - 1];
      LoadingTracks(before, name);
      LoadingStep(Loading(before), last, name);
      assert LoadingHistory(events, name)[..|events| - 1] == LoadingHistory(before, name);
    }
  }

  lemma LoadingStep(m: Since, e: Event, name: string)
    ensures Get(LoadingAfter(m, e), name) == Track(Get(m, name), LoadingSight(e, name))
  {
  }

  /** A loaded model's time is that of the listing that opened its unbroken streak; no answer breaks a streak. */
  lemma LoadedIsStreak(events: seq<Event>, name: string)
    ensures name in Loaded(events) <==> exists k :: OpensStreak(LoadedHistory(events, name), k)
    ensures forall k :: OpensStreak(LoadedHistory(events, name), k) ==> name in Loaded(events) && Loaded(events)[name] == LoadedHistory(events, name)[k].now
  {
    hide Loaded, Tracked, OpensStreak, LoadedHistory;
    LoadedTracks(events, name);
    TrackedIsStreak(LoadedHistory(events, name));
  }

  /** For a loading model no answer breaks nothing, and a recovery breaks every streak. */
  lemma LoadingIsStreak(events: seq<Event>, name: string)
    ensures name in Loading(events) <==> exists k :: OpensStreak(LoadingHistory(events, name), k)
    ensures forall k :: OpensStreak(LoadingHistory(events, name), k) ==> name in Loading(events) && Loading(events)[name] == LoadingHistory(events, name)[k].now
  {
    hide Loading, Tracked, OpensStreak, LoadingHistory;
    LoadingTracks(events, name);
    TrackedIsStreak(LoadingHistory(events, name));
  }

  // ----- Which models to evict

  /** A model found loaded, with the time it was first seen so. */
  datatype Resident = Resident(since: Time, name: string)

  /** Sizes on record; a model without one counts nothing. */
  type Sizes = string -> Option<nat>

  function SizeOf(r: Resident, size: Sizes): nat {
    match size(r.name) case Some(n) => n case None => 0
  }

  function Total(rs: seq<Resident>, size: Sizes): nat {
    if rs == [] then 0 else Total(rs[..|rs| - 1], size) + SizeOf(rs[|rs| - 1], size)
  }

  /** Sizes add up; one model counts its size on record, or nothing. */
  lemma {:induction false} TotalAdds(a: seq<Resident>, b: seq<Resident>, size: Sizes)
    ensures Total(a + b, size) == Total(a, size) + Total(b, size)
    ensures forall r: Resident :: Total([r], size) == if size(r.name).Some? then size(r.name).value else 0
    decreases |b|
  {
    forall r: Resident
      ensures Total([r], size) == if size(r.name).Some? then size(r.name).value else 0
    {
      assert [r][..0] == [];
    }
    if b == [] {
      assert a + b == a;
    } else {
      TotalAdds(a, b[..|b| - 1], size);
      assert (a + b)[..|a + b| - 1] == a + b[..|b| - 1];
    }
  }

  predicate Older(rs: seq<Resident>, i: nat, j: nat)
    requires i < |rs| && j < |rs|
  {
    rs[i].since < rs[j].since || (rs[i].since == rs[j].since && i < j)
  }

  predicate Positions(order: seq<nat>, n: nat) {
    forall k :: 0 <= k < |order| ==> order[k] < n
  }

  /** Positions of a list in a stable order of age. */
  predicate OldestFirst(rs: seq<Resident>, order: seq<nat>)
    requires Positions(order, |rs|)
  {
    forall k, l :: 0 <= k < l < |order| ==> Older(rs, order[k], order[l])
  }

  /** Where position i belongs among earlier positions that are already in order. */
  function Insert(rs: seq<Resident>, order: seq<nat>, i: nat): (r: seq<nat>)
    requires i < |rs| && Positions(order, i)
    ensures multiset(r) == multiset(order) + multiset{i} && Positions(r, i + 1)
  {
    if order == [] then [i]
    else
      var last := |order| - 1;
      assert order == order[..last] + [order[last]];
      if rs[order[last]].since <= rs[i].since then order + [i]
      else Insert(rs, order[..last], i) + [order[last]]
  }

  lemma {:induction false} InsertKeepsOrder(rs: seq<Resident>, order: seq<nat>, i: nat)
    requires i < |rs| && Positions(order, i) && OldestFirst(rs, order)
    ensures OldestFirst(rs, Insert(rs, order, i))
    decreases |order|
  {
    if order != [] {
      var last := |order| - 1;
      if rs[order[last]].since <= rs[i].since {
        OlderThanNew(rs, order, i);
      } else {
        InsertKeepsOrder(rs, order[..last], i);
        LastStaysLast(rs, order, i);
        EndsWith(rs, Insert(rs, order[..last], i), order[last]);
      }
    }
  }

  predicate AllOlder(rs: seq<Resident>, order: seq<nat>, x: nat)
    requires x < |rs| && Positions(order, |rs|)
  {
    forall k :: 0 <= k < |order| ==> Older(rs, order[k], x)
  }

  lemma EndsWith(rs: seq<Resident>, order: seq<nat>, x: nat)
    requires x < |rs| && Positions(order, |rs|) && OldestFirst(rs, order)
    requires AllOlder(rs, order, x)
    ensures OldestFirst(rs, order + [x])
  {
  }

  lemma LastStaysLast(rs: seq<Resident>, order: seq<nat>, i: nat)
    requires i < |rs| && Positions(order, i) && OldestFirst(rs, order)
    requires order != [] && rs[i].since < rs[order[|order| - 1]].since
    ensures AllOlder(rs, Insert(rs, order[..|order| - 1], i), order[|order| - 1])
  {
    var last := |order| - 1;
    var r := Insert(rs, order[..last], i);
    forall k | 0 <= k < |r|
      ensures Older(rs, r[k], order[last])
    {
      hide Insert;
      assert r[k] in multiset(r);
      assert r[k] == i || r[k] in order[..last];
    }
  }

  lemma OlderThanNew(rs: seq<Resident>, order: seq<nat>, i: nat)
    requires i < |rs| && Positions(order, i) && OldestFirst(rs, order)
    requires order != [] && rs[order[|order| - 1]].since <= rs[i].since
    ensures OldestFirst(rs, order + [i])
  {
    forall k | 0 <= k < |order|
      ensures Older(rs, order[k], i)
    {
      if k < |order| - 1 {
        assert Older(rs, order[k], order[|order| - 1]);
      }
    }
  }

  function SortedPositions(rs: seq<Resident>, n: nat): (r: seq<nat>)
    requires n <= |rs|
    ensures Positions(r, n)
  {
    if n == 0 then [] else Insert(rs, SortedPositions(rs, n - 1), n - 1)
  }

  lemma {:induction false} SortedPositionsOrdered(rs: seq<Resident>, n: nat)
    requires n <= |rs|
    ensures OldestFirst(rs, SortedPositions(rs, n)) && |SortedPositions(rs, n)| == n
  {
    if n > 0 {
      hide Insert;
      SortedPositionsOrdered(rs, n - 1);
      InsertKeepsOrder(rs, SortedPositions(rs, n - 1), n - 1);
      var order := SortedPositions(rs, n - 1);
      assert |multiset(Insert(rs, order, n - 1))| == |multiset(order)| + 1;
    }
  }

  function At(rs: seq<Resident>, order: seq<nat>): (r: seq<Resident>)
    requires Positions(order, |rs|)
    ensures |r| == |order| && forall k :: 0 <= k < |order| ==> r[k] == rs[order[k]]
  {
    seq(|order|, k requires 0 <= k < |order| => rs[order[k]])
  }

  /** The list in the order of a stable sort by first sight. */
  function Sorted(rs: seq<Resident>): seq<Resident> {
    At(rs, SortedPositions(rs, |rs|))
  }

  function TakeUntil(rs: seq<Resident>, n: nat, target: int, size: Sizes): (k: nat)
    requires n <= |rs|
    ensures k <= |rs|
    decreases |rs| - n
  {
    if n == |rs| || Total(rs[..n], size) >= target then n else TakeUntil(rs, n + 1, target, size)
  }

  /** The oldest first, for as long as the sizes so far do not reach the target. */
  function Select(rs: seq<Resident>, target: int, size: Sizes): (r: seq<Resident>) {
    Sorted(rs)[..TakeUntil(Sorted(rs), 0, target, size)]
  }

  lemma {:induction false} TakeUntilIsFirst(rs: seq<Resident>, n: nat, target: int, size: Sizes)
    requires n <= |rs|
    ensures var k := TakeUntil(rs, n, target, size);
            && n <= k <= |rs| && (k == |rs| || Total(rs[..k], size) >= target)
            && forall j :: n <= j < k ==> Total(rs[..j], size) < target
    decreases |rs| - n
  {
    hide Total;
    if !(n == |rs| || Total(rs[..n], size) >= target) {
      TakeUntilIsFirst(rs, n + 1, target, size);
    }
  }

  /** Nothing is lost or doubled by the sort, and it is in order of age. */
  lemma SortedMeaning(rs: seq<Resident>)
    ensures |Sorted(rs)| == |rs| && multiset(Sorted(rs)) == multiset(rs)
    ensures forall k, l :: 0 <= k < l < |rs| ==> Sorted(rs)[k].since <= Sorted(rs)[l].since
  {
    var order := SortedPositions(rs, |rs|);
    SortedPositionsOrdered(rs, |rs|);
    SortedCounts(rs, |rs|);
    assert rs[..|rs|] == rs;
    assert |multiset(Sorted(rs))| == |Sorted(rs)| && |multiset(rs)| == |rs|;
    forall k, l | 0 <= k < l < |order|
      ensures Sorted(rs)[k].since <= Sorted(rs)[l].since
    {
      assert Older(rs, order[k], order[l]);
    }
  }

  lemma AtAppend(rs: seq<Resident>, order: seq<nat>, i: nat)
    requires i < |rs| && Positions(order, |rs|)
    ensures At(rs, order + [i]) == At(rs, order) + [rs[i]]
  {
  }

  lemma {:induction false} AtInsert(rs: seq<Resident>, order: seq<nat>, i: nat)
    requires i < |rs| && Positions(order, i)
    ensures multiset(At(rs, Insert(rs, order, i))) == multiset(At(rs, order)) + multiset{rs[i]}
    decreases |order|
  {
    hide At;
    if order == [] {
      AtAppend(rs, [], i);
      assert [] + [i] == [i];
    } else {
      var last := |order| - 1;
      assert order == order[..last] + [order[last]];
      AtAppend(rs, order[..last], order[last]);
      if rs[order[last]].since <= rs[i].since {
        AtAppend(rs, order, i);
      } else {
        AtInsert(rs, order[..last], i);
        AtAppend(rs, Insert(rs, order[..last], i), order[last]);
      }
    }
  }

  lemma OneMore(rs: seq<Resident>, n: nat)
    requires n < |rs|
    ensures multiset(rs[..n + 1]) == multiset(rs[..n]) + multiset{rs[n]}
  {
    assert rs[..n + 1] == rs[..n] + [rs[n]];
  }

  lemma CountsStep(rs: seq<Resident>, order: seq<nat>, n: nat)
    requires n < |rs| && Positions(order, n) && multiset(At(rs, order)) == multiset(rs[..n])
    ensures multiset(At(rs, Insert(rs, order, n))) == multiset(rs[..n + 1])
  {
    hide Insert, At;
    AtInsert(rs, order, n);
    OneMore(rs, n);
  }

  lemma {:induction false} SortedCounts(rs: seq<Resident>, n: nat)
    requires n <= |rs|
    ensures multiset(At(rs, SortedPositions(rs, n))) == multiset(rs[..n])
  {
    hide Insert, At;
    if n == 0 {
      assert rs[..0] == [];
    } else {
      SortedCounts(rs, n - 1);
      CountsStep(rs, SortedPositions(rs, n - 1), n - 1);
    }
  }

  /** The shortest prefix, oldest first, whose sizes reach the target, or everything. */
  lemma SelectShortest(rs: seq<Resident>, target: int, size: Sizes)
    ensures var picked := Select(rs, target, size);
            && |picked| <= |Sorted(rs)| && picked == Sorted(rs)[..|picked|]
            && (Total(picked, size) >= target || multiset(picked) == multiset(rs))
            && forall j :: 0 <= j < |picked| ==> Total(picked[..j], size) < target
  {
    hide Total, Sorted;
    TakeUntilIsFirst(Sorted(rs), 0, target, size);
    SortedMeaning(rs);
    var picked := Select(rs, target, size);
    assert forall j :: 0 <= j < |picked| ==> picked[..j] == Sorted(rs)[..j];
    if |picked| == |Sorted(rs)| {
      assert picked == Sorted(rs);
    }
  }

  /** The loaded models of a listing, with the time each was first seen so. */
  function Residents(entries: seq<Entry>, m: Since): seq<Resident>
    requires forall name :: Lists(Some(entries), name, "loaded") ==> name in m
  {
    if entries == [] then []
    else
      var last := |entries| - 1;
      var e := entries[last];
      assert forall name :: Lists(Some(entries[..last]), name, "loaded") ==> Lists(Some(entries), name, "loaded");
      var before := Residents(entries[..last], m);
      if e.Entry? && e.name != "" && e.status == "loaded" then
        assert Is(entries[last], e.name, "loaded") && Lists(Some(entries), e.name, "loaded");
        before + [Resident(m[e.name], e.name)]
      else before
  }

  lemma {:induction false} ResidentsAre(entries: seq<Entry>, m: Since)
    requires forall name :: Lists(Some(entries), name, "loaded") ==> name in m
    ensures forall r :: r in Residents(entries, m) <==> Lists(Some(entries), r.name, "loaded") && r.since == m[r.name]
  {
    if entries != [] {
      var last := |entries| - 1;
      assert forall name :: Lists(Some(entries[..last]), name, "loaded") ==> Lists(Some(entries), name, "loaded");
      ResidentsAre(entries[..last], m);
      forall r: Resident
        ensures r in Residents(entries, m) <==> Lists(Some(entries), r.name, "loaded") && r.since == m[r.name]
      {
        ListsLast(entries, r.name);
      }
    }
  }

  lemma ListsLast(entries: seq<Entry>, name: string)
    requires entries != []
    ensures Lists(Some(entries), name, "loaded") <==>
            Lists(Some(entries[..|entries| - 1]), name, "loaded") || Is(entries[|entries| - 1], name, "loaded")
  {
    var last := |entries| - 1;
    if i :| 0 <= i < |entries| && Is(entries[i], name, "loaded") {
      if i < last {
        assert Is(entries[..last][i], name, "loaded");
      }
    }
    if i :| 0 <= i < last && Is(entries[..last][i], name, "loaded") {
      assert Is(entries[i], name, "loaded");
    }
  }

  /**
   Over any history of listings: what is evicted is loaded, nothing that is left was loaded before anything that
   is evicted, something is left only if the target is reached, and the target is not reached without the last.
   */
  lemma EvictionIsOldestPrefix(events: seq<Event>, entries: seq<Entry>, now: Time, target: int, size: Sizes)
    ensures var m := Loaded(events + [Listed(Some(entries), now)]);
            && (forall name :: Lists(Some(entries), name, "loaded") ==> name in m)
            && var picked := Select(Residents(entries, m), target, size);
            && (forall r <- picked :: Lists(Some(entries), r.name, "loaded") && r.since == m[r.name])
            && (forall r <- picked, name :: Lists(Some(entries), name, "loaded") && (forall q <- picked :: q.name != name) ==>
                 m[r.name] <= m[name] && Total(picked, size) >= target)
            && forall j :: 0 <= j < |picked| ==> Total(picked[..j], size) < target
  {
    hide Total, Select, Sorted, Residents, Lists;
    var m := Loaded(events + [Listed(Some(entries), now)]);
    AfterListing(events, entries, now);
    var rs := Residents(entries, m);
    var picked := Select(rs, target, size);
    ResidentsAre(entries, m);
    SelectShortest(rs, target, size);
    SortedMeaning(rs);
    forall r | r in picked
      ensures Lists(Some(entries), r.name, "loaded") && r.since == m[r.name]
    {
      assert r in multiset(Sorted(rs));
      assert r in rs;
    }
    forall r, name | r in picked && Lists(Some(entries), name, "loaded") && forall q <- picked :: q.name != name
      ensures m[r.name] <= m[name] && Total(picked, size) >= target
    {
      LeftBehind(rs, target, size, r, Resident(m[name], name));
    }
  }

  lemma LeftBehind(rs: seq<Resident>, target: int, size: Sizes, r: Resident, q: Resident)
    requires r in Select(rs, target, size) && q in rs && q !in Select(rs, target, size)
    ensures r.since <= q.since && Total(Select(rs, target, size), size) >= target
  {
    hide Total, Sorted;
    var picked := Select(rs, target, size);
    SelectShortest(rs, target, size);
    SortedMeaning(rs);
    assert q in multiset(rs) && q in multiset(Sorted(rs));
    var l :| 0 <= l < |Sorted(rs)| && Sorted(rs)[l] == q;
    var k :| 0 <= k < |picked| && picked[k] == r;
    assert Sorted(rs)[k] == r;
    if l < |picked| {
      assert picked[l] == q;
    }
    assert multiset(picked) == multiset(rs) ==> q in multiset(picked);
  }

  lemma AfterListing(events: seq<Event>, entries: seq<Entry>, now: Time)
    ensures var m := Loaded(events + [Listed(Some(entries), now)]);
            forall name :: name in m <==> Lists(Some(entries), name, "loaded")
  {
    hide Lists;
    var all := events + [Listed(Some(entries), now)];
    assert all[|all| - 1] == Listed(Some(entries), now);
    assert all[..|all| - 1] == events;
  }

  /** Models whose loading has gone on for longer than the timeout. */
  predicate Stuck(e: Entry, m: Since, now: Time, timeout: Time) {
    e.Entry? && e.name != "" && e.status == "loading" && e.name in m && now - m[e.name] > timeout
  }

  /** The first stuck model in the order of the listing. */
  function FirstStuck(entries: seq<Entry>, m: Since, now: Time, timeout: Time): Option<string> {
    if entries == [] then None
    else if Stuck(entries[0], m, now, timeout) then Some(entries[0].name)
    else FirstStuck(entries[1..], m, now, timeout)
  }

  function Staleness(listing: Listing, m: Since, now: Time, timeout: Time): Option<string> {
    if listing.None? then None else FirstStuck(listing.value, LoadingAfter(m, Listed(listing, now)), now, timeout)
  }

  /** A model has been loading without break for longer than the timeout. */
  ghost predicate LongStreak(events: seq<Event>, name: string, now: Time, timeout: Time) {
    exists k :: OpensStreak(LoadingHistory(events, name), k) && now - LoadingHistory(events, name)[k].now > timeout
  }

  predicate StuckAs(entries: seq<Entry>, name: string, m: Since, now: Time, timeout: Time) {
    exists i :: 0 <= i < |entries| && Stuck(entries[i], m, now, timeout) && entries[i].name == name
  }

  /** A model is reported exactly if one is listed as loading and has been, unbroken, for longer than the timeout. */
  lemma StalenessMeaning(events: seq<Event>, listing: Listing, now: Time, timeout: Time)
    ensures Staleness(listing, Loading(events), now, timeout).Some? <==>
              exists name :: Lists(listing, name, "loading") && LongStreak(events + [Listed(listing, now)], name, now, timeout)
  {
    hide Loading, LongStreak, Lists, Stuck, LoadingAfter;
    var all := events + [Listed(listing, now)];
    var m := Loading(all);
    LoadingOnce(events, Listed(listing, now));
    if listing.Some? {
      FirstStuckMeaning(listing.value, m, now, timeout);
      forall name
        ensures StuckAs(listing.value, name, m, now, timeout) <==> Lists(listing, name, "loading") && LongStreak(all, name, now, timeout)
      {
        StuckIsLongStreak(all, listing, name, now, timeout);
      }
    } else {
      NothingListed(listing, "loading");
    }
  }

  /** The one reported is the first in the order of the listing. */
  lemma {:induction false} FirstStuckIsFirst(entries: seq<Entry>, m: Since, now: Time, timeout: Time) returns (i: nat)
    requires FirstStuck(entries, m, now, timeout).Some?
    ensures i < |entries| && Stuck(entries[i], m, now, timeout) && FirstStuck(entries, m, now, timeout).value == entries[i].name
    ensures forall k :: 0 <= k < i ==> !Stuck(entries[k], m, now, timeout)
    decreases |entries|
  {
    if Stuck(entries[0], m, now, timeout) {
      i := 0;
    } else {
      var rest := entries[1..];
      var j := FirstStuckIsFirst(rest, m, now, timeout);
      i := j + 1;
      assert forall k :: 0 < k < |entries| ==> entries[k] == rest[k - 1];
    }
  }

  lemma LoadingOnce(events: seq<Event>, e: Event)
    ensures Loading(events + [e]) == LoadingAfter(Loading(events), e)
  {
    assert (events + [e])[..|events|] == events;
  }

  lemma NothingListed(listing: Listing, status: string)
    requires listing.None?
    ensures forall name :: !Lists(listing, name, status)
  {
  }

  lemma {:induction false} FirstStuckMeaning(entries: seq<Entry>, m: Since, now: Time, timeout: Time)
    ensures FirstStuck(entries, m, now, timeout).Some? <==> exists name :: StuckAs(entries, name, m, now, timeout)
    decreases |entries|
  {
    hide Stuck;
    if entries != [] {
      FirstStuckMeaning(entries[1..], m, now, timeout);
      forall name
        ensures StuckAs(entries, name, m, now, timeout) <==>
                (Stuck(entries[0], m, now, timeout) && entries[0].Entry? && entries[0].name == name) || StuckAs(entries[1..], name, m, now, timeout)
      {
        StuckFirst(entries, name, m, now, timeout);
      }
      if Stuck(entries[0], m, now, timeout) {
        IsObject(entries[0], m, now, timeout);
        assert StuckAs(entries, entries[0].name, m, now, timeout);
      }
    }
  }

  lemma IsObject(e: Entry, m: Since, now: Time, timeout: Time)
    requires Stuck(e, m, now, timeout)
    ensures e.Entry?
  {
  }

  lemma StuckFirst(entries: seq<Entry>, name: string, m: Since, now: Time, timeout: Time)
    requires entries != []
    ensures StuckAs(entries, name, m, now, timeout) <==>
            (Stuck(entries[0], m, now, timeout) && entries[0].Entry? && entries[0].name == name) || StuckAs(entries[1..], name, m, now, timeout)
  {
    var rest := entries[1..];
    assert forall i :: 0 <= i < |rest| ==> rest[i] == entries[i + 1];
    if StuckAs(entries, name, m, now, timeout) {
      var i :| 0 <= i < |entries| && Stuck(entries[i], m, now, timeout) && entries[i].name == name;
      if i > 0 {
        assert rest[i - 1] == entries[i];
      }
    }
    if StuckAs(rest, name, m, now, timeout) {
      var i :| 0 <= i < |rest| && Stuck(rest[i], m, now, timeout) && rest[i].name == name;
      assert entries[i + 1] == rest[i];
    }
  }

  lemma StuckIsLongStreak(all: seq<Event>, listing: Listing, name: string, now: Time, timeout: Time)
    requires listing.Some?
    ensures StuckAs(listing.value, name, Loading(all), now, timeout) <==> Lists(listing, name, "loading") && LongStreak(all, name, now, timeout)
  {
    hide Loading, OpensStreak, LoadingHistory;
    LoadingIsStreak(all, name);
    var entries := listing.value;
    if StuckAs(entries, name, Loading(all), now, timeout) {
      var i :| 0 <= i < |entries| && Stuck(entries[i], Loading(all), now, timeout) && entries[i].name == name;
      assert Is(entries[i], name, "loading");
    }
    if Lists(listing, name, "loading") && LongStreak(all, name, now, timeout) {
      var i :| 0 <= i < |entries| && Is(entries[i], name, "loading");
      assert Stuck(entries[i], Loading(all), now, timeout);
    }
  }
}
