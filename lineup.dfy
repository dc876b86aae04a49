/**
 * The lineup generator: builds the evening's session from the library.  It
 * keeps the enabled episodes that are not on cooldown (episodes of a
 * requested series are exempt), weighs them, triples the weight of requested
 * series, fulfils the requests, then fills the remaining slots towards the
 * target runtime while preferring unseen (series, season) pairs, and finally
 * writes the session and its play rows.
 *
 * `random.choices` is a nondeterministic choice among the candidates whose
 * weight is positive: every such candidate has a non-zero probability, and
 * the model proves what holds whichever one is drawn.
 */
module Lineup {
  import opened Common
  import opened Models
  import opened Sorting
  import opened Store
  import opened Library
  import opened Weights

  /** The tolerance, in seconds, around the available runtime. */
  const RuntimeTolerance: int := 60
  /** The factor applied to a candidate's weight per request naming its series. */
  const RequestMultiplier: real := 3.0
  /** The count of a legacy `{"series": ...}` payload without a count. */
  const LegacyDefaultCount: int := 3

  // ---------------------------------------------------------------------------
  // Request payload and runtime budget
  // ---------------------------------------------------------------------------

  /** The request list of a payload: its "requests" entry; else a legacy
      "series" entry with its count (3 when absent); else nothing.  An absent
      or empty payload has no requests. */
  function NormalizePayload(payload: Option<Payload>): (r: seq<RequestItem>)
    ensures payload.Some? && payload.value.requests.Some? ==> r == payload.value.requests.value
    ensures payload.Some? && payload.value.requests.None? && payload.value.series.Some? ==>
      |r| == 1 && r[0].series == payload.value.series.value &&
      (payload.value.count.None? ==> r[0].count == LegacyDefaultCount)
    ensures payload.None? || (payload.value.requests.None? && payload.value.series.None?) ==> r == []
  {
    match payload
    case None => []
    case Some(p) =>
      if p.requests.Some? then p.requests.value
      else if p.series.Some? then [RequestItem(p.series.value, if p.count.Some? then p.count.value else LegacyDefaultCount)]
      else []
  }

  /** Seconds left for episodes once the intro and outro are reserved. */
  function AvailableDuration(targetMinutes: int, introSeconds: int, outroSeconds: int): (r: int)
    ensures r + introSeconds + outroSeconds == targetMinutes * 60
  {
    targetMinutes * 60 - introSeconds - outroSeconds
  }

  // ---------------------------------------------------------------------------
  // _build_candidate_pool
  // ---------------------------------------------------------------------------

  /** The series named by the requests. */
  function RequestedSeries(requests: seq<RequestItem>): (names: set<string>)
    ensures forall s :: s in names <==> exists k :: 0 <= k < |requests| && requests[k].series == s
  {
    set k | 0 <= k < |requests| :: requests[k].series
  }

  /** An episode stays in the pool when its series is requested or it has no
      completed play that started at or after the cooldown cutoff. */
  predicate InPool(v: Video, plays: seq<PlayHistory>, requested: set<string>, cutoff: int) {
    v.series in requested || !RecentlyCompleted(plays, v.id, cutoff)
  }

  /** The episodes of `vs` that stay in the pool, in their order. */
  function PoolFilter(vs: seq<Video>, plays: seq<PlayHistory>, requested: set<string>, cutoff: int): (r: seq<Video>)
    ensures forall v :: v in r <==> v in vs && InPool(v, plays, requested, cutoff)
  {
    if vs == [] then []
    else
      var init := PoolFilter(vs[..|vs| - 1], plays, requested, cutoff);
      var v := vs[|vs| - 1];
      assert vs == vs[..|vs| - 1] + [v];
      if InPool(v, plays, requested, cutoff) then init + [v] else init
  }

  /** Filtering keeps the order of a sorted list. */
  lemma {:induction false} PoolFilterSorted(vs: seq<Video>, plays: seq<PlayHistory>, requested: set<string>, cutoff: int)
    requires SortedBy(vs, EpisodeLe)
    ensures SortedBy(PoolFilter(vs, plays, requested, cutoff), EpisodeLe)
  {
    if vs != [] {
      var init := vs[..|vs| - 1];
      var v := vs[|vs| - 1];
      assert SortedBy(init, EpisodeLe) by {
        forall i, j | 0 <= i < j < |init| ensures EpisodeLe(init[i], init[j]) {
          assert init[i] == vs[i] && init[j] == vs[j];
        }
      }
      PoolFilterSorted(init, plays, requested, cutoff);
      var r := PoolFilter(init, plays, requested, cutoff);
      if InPool(v, plays, requested, cutoff) {
        forall i | 0 <= i < |r| ensures EpisodeLe(r[i], v) {
          assert r[i] in init;
          var m :| 0 <= m < |init| && init[m] == r[i];
          assert vs[m] == r[i];
        }
        assert PoolFilter(vs, plays, requested, cutoff) == r + [v];
      }
    }
  }

  /** `_build_candidate_pool`: the enabled episodes in (series, season,
      episode code) order, minus those on cooldown unless their series is
      requested. */
  method BuildCandidatePool(videos: seq<Video>, plays: seq<PlayHistory>, requests: seq<RequestItem>,
                            cooldownDays: int, now: int)
    returns (candidates: seq<Video>)
    ensures candidates == PoolFilter(ListEpisodes(videos, None, None, false), plays, RequestedSeries(requests),
                                     now - cooldownDays * SecondsPerDay)
  {
    var episodes := ListEpisodes(videos, None, None, false);
    var cutoff := now - cooldownDays * SecondsPerDay;
    var requested := RequestedSeries(requests);
    candidates := [];
    var i := 0;
    while i < |episodes|
      invariant 0 <= i <= |episodes|
      invariant candidates == PoolFilter(episodes[..i], plays, requested, cutoff)
    {
      var v := episodes[i];
      assert episodes[..i + 1][..i] == episodes[..i];
      if v.series in requested {
        candidates := candidates + [v];
      } else if !RecentlyCompleted(plays, v.id, cutoff) {
        candidates := candidates + [v];
      }
      i := i + 1;
    }
    assert episodes[..i] == episodes;
  }

  /** The pool holds exactly the enabled videos that are requested or off
      cooldown, sorted by (series, season, episode code). */
  lemma CandidatePoolContents(videos: seq<Video>, plays: seq<PlayHistory>, requests: seq<RequestItem>,
                              cooldownDays: int, now: int)
    ensures var cutoff := now - cooldownDays * SecondsPerDay;
      var pool := PoolFilter(ListEpisodes(videos, None, None, false), plays, RequestedSeries(requests), cutoff);
      SortedBy(pool, EpisodeLe) &&
      forall v :: v in pool <==> (v in videos && !v.disabled &&
        ((exists k :: 0 <= k < |requests| && requests[k].series == v.series) || !RecentlyCompleted(plays, v.id, cutoff)))
  {
    var cutoff := now - cooldownDays * SecondsPerDay;
    PoolFilterSorted(ListEpisodes(videos, None, None, false), plays, RequestedSeries(requests), cutoff);
  }

  // ---------------------------------------------------------------------------
  // The request multiplier
  // ---------------------------------------------------------------------------

  /** `w` after `n` applications of `weights[id] *= 3.0`. */
  function Tripled(w: real, n: nat): real {
    if n == 0 then w else Tripled(w, n - 1) * RequestMultiplier
  }

  /** Number of candidates with id `id` and series `series`. */
  function MatchCount(candidates: seq<Video>, id: int, series: string): nat {
    if candidates == [] then 0
    else
      var last := candidates[|candidates| - 1];
      MatchCount(candidates[..|candidates| - 1], id, series) + (if last.id == id && last.series == series then 1 else 0)
  }

  /** Number of times the multiplier is applied to the weight of `id`: once
      per request and per candidate with that id in the requested series. */
  function Hits(requests: seq<RequestItem>, candidates: seq<Video>, id: int): nat {
    if requests == [] then 0
    else Hits(requests[..|requests| - 1], candidates, id) + MatchCount(candidates, id, requests[|requests| - 1].series)
  }

  lemma {:induction false} TripledAdd(w: real, a: nat, b: nat)
    ensures Tripled(Tripled(w, a), b) == Tripled(w, a + b)
  {
    if b > 0 {
      TripledAdd(w, a, b - 1);
    }
  }

  /** One request: multiplies by 3 the weight of every candidate of `series`,
      once per such candidate row. */
  method BoostSeries(weights: map<int, real>, series: string, candidates: seq<Video>)
    returns (boosted: map<int, real>)
    requires forall k :: 0 <= k < |candidates| ==> candidates[k].id in weights
    ensures boosted.Keys == weights.Keys
    ensures forall id :: id in boosted ==> boosted[id] == Tripled(weights[id], MatchCount(candidates, id, series))
  {
    boosted := weights;
    var j := 0;
    while j < |candidates|
      invariant 0 <= j <= |candidates|
      invariant boosted.Keys == weights.Keys
      invariant forall id :: id in boosted ==> boosted[id] == Tripled(weights[id], MatchCount(candidates[..j], id, series))
    {
      var v := candidates[j];
      assert candidates[..j + 1][..j] == candidates[..j];
      if v.series == series {
        var old_ := boosted;
        boosted := boosted[v.id := boosted[v.id] * RequestMultiplier];
        forall id | id in boosted
          ensures boosted[id] == Tripled(weights[id], MatchCount(candidates[..j + 1], id, series))
        {
          if id != v.id {
            assert boosted[id] == old_[id];
          }
        }
      }
      j := j + 1;
    }
    assert candidates[..j] == candidates;
  }

  /** Multiplies the weight of each candidate by 3 once per request naming
      its series; no key is added or removed. */
  method ApplyRequestBoost(weights: map<int, real>, requests: seq<RequestItem>, candidates: seq<Video>)
    returns (boosted: map<int, real>)
    requires forall k :: 0 <= k < |candidates| ==> candidates[k].id in weights
    ensures boosted.Keys == weights.Keys
    ensures forall id :: id in boosted ==> boosted[id] == Tripled(weights[id], Hits(requests, candidates, id))
  {
    boosted := weights;
    var i := 0;
    while i < |requests|
      invariant 0 <= i <= |requests|
      invariant boosted.Keys == weights.Keys
      invariant forall id :: id in boosted ==> boosted[id] == Tripled(weights[id], Hits(requests[..i], candidates, id))
    {
      assert requests[..i + 1][..i] == requests[..i];
      var series := requests[i].series;
      var before := boosted;
      boosted := BoostSeries(boosted, series, candidates);
      forall id | id in boosted
        ensures boosted[id] == Tripled(weights[id], Hits(requests[..i + 1], candidates, id))
      {
        TripledAdd(weights[id], Hits(requests[..i], candidates, id), MatchCount(candidates, id, series));
      }
      i := i + 1;
    }
    assert requests[..i] == requests;
  }

  /** Number of requests naming `series`. */
  function Naming(requests: seq<RequestItem>, series: string): nat {
    if requests == [] then 0
    else Naming(requests[..|requests| - 1], series) + (if requests[|requests| - 1].series == series then 1 else 0)
  }

  lemma {:induction false} MatchCountOfDistinct(candidates: seq<Video>, v: Video, series: string)
    requires DistinctIds(candidates) && v in candidates
    ensures MatchCount(candidates, v.id, series) == if v.series == series then 1 else 0
  {
    var init := candidates[..|candidates| - 1];
    var last := candidates[|candidates| - 1];
    if last == v {
      assert forall k :: 0 <= k < |init| ==> init[k].id != v.id by {
        forall k | 0 <= k < |init| ensures init[k].id != v.id {
          assert init[k] == candidates[k];
        }
      }
      MatchCountAbsent(init, v.id, series);
    } else {
      var m :| 0 <= m < |candidates| && candidates[m] == v;
      assert m < |init| && init[m] == v;
      assert last.id != v.id;
      assert DistinctIds(init) by {
        forall i, j | 0 <= i < j < |init| ensures init[i].id != init[j].id {
          assert init[i] == candidates[i] && init[j] == candidates[j];
        }
      }
      MatchCountOfDistinct(init, v, series);
    }
  }

  lemma {:induction false} MatchCountAbsent(candidates: seq<Video>, id: int, series: string)
    requires forall k :: 0 <= k < |candidates| ==> candidates[k].id != id
    ensures MatchCount(candidates, id, series) == 0
  {
    if candidates != [] {
      var init := candidates[..|candidates| - 1];
      assert forall k :: 0 <= k < |init| ==> init[k] == candidates[k];
      MatchCountAbsent(init, id, series);
    }
  }

  /** With one row per id, a candidate's weight is multiplied by 3 once per
      request naming its series. */
  lemma {:induction false} HitsOfDistinct(requests: seq<RequestItem>, candidates: seq<Video>, v: Video)
    requires DistinctIds(candidates) && v in candidates
    ensures Hits(requests, candidates, v.id) == Naming(requests, v.series)
  {
    if requests != [] {
      HitsOfDistinct(requests[..|requests| - 1], candidates, v);
      MatchCountOfDistinct(candidates, v, requests[|requests| - 1].series);
    }
  }

  /** The boost keeps the sign: a weight-0 (never again) episode stays at 0
      and a positive weight stays positive and does not decrease. */
  lemma {:induction false} TripledKeepsSign(w: real, n: nat)
    ensures w == 0.0 ==> Tripled(w, n) == 0.0
    ensures w > 0.0 ==> Tripled(w, n) >= w
  {
    if n > 0 {
      TripledKeepsSign(w, n - 1);
    }
  }

  // ---------------------------------------------------------------------------
  // _select_episodes
  // ---------------------------------------------------------------------------

  /** `list.remove(x)`: drops the first element equal to `x`. */
  function RemoveFirst(s: seq<Video>, x: Video): (r: seq<Video>)
    ensures x in s ==> |r| == |s| - 1 && multiset(r) + multiset{x} == multiset(s)
    ensures x !in s ==> r == s
  {
    if s == [] then []
    else
      assert s == [s[0]] + s[1..];
      if s[0] == x then s[1..] else [s[0]] + RemoveFirst(s[1..], x)
  }

  /** The candidates with a positive weight (`weights.get(v.id, 0) > 0`), in order. */
  function PositiveWeighted(candidates: seq<Video>, weights: map<int, real>): (r: seq<Video>)
    ensures multiset(r) <= multiset(candidates)
    ensures forall v :: v in r <==> v in candidates && v.id in weights && weights[v.id] > 0.0
  {
    if candidates == [] then []
    else
      assert candidates == [candidates[0]] + candidates[1..];
      var rest := PositiveWeighted(candidates[1..], weights);
      var v := candidates[0];
      if v.id in weights && weights[v.id] > 0.0 then [v] + rest else rest
  }

  lemma {:induction false} CountSeriesRemove(pool: seq<Video>, c: Video, series: string)
    requires c in pool
    ensures CountSeries(RemoveFirst(pool, c), series) + (if c.series == series then 1 else 0) == CountSeries(pool, series)
  {
    if pool[0] != c {
      CountSeriesRemove(pool[1..], c, series);
      assert RemoveFirst(pool, c) == [pool[0]] + RemoveFirst(pool[1..], c);
    }
  }

  lemma {:induction false} CountSeriesZero(pool: seq<Video>, series: string)
    requires forall c :: c in pool ==> c.series != series
    ensures CountSeries(pool, series) == 0
  {
    if pool != [] {
      assert pool[0] in pool;
      assert forall c :: c in pool[1..] ==> c in pool;
      CountSeriesZero(pool[1..], series);
    }
  }

  /** One request: up to `count` weighted picks among the remaining
      candidates of `series`, each removed from the pool.  It stops early only
      when the series has no candidate left, so it picks exactly
      min(count, candidates of the series) episodes, and the other series keep
      all their candidates. */
  method FulfillRequest(pool: seq<Video>, series: string, count: int) returns (picked: seq<Video>, rest: seq<Video>)
    ensures multiset(picked) + multiset(rest) == multiset(pool)
    ensures |picked| == Min(Max(count, 0), CountSeries(pool, series))
    ensures forall k :: 0 <= k < |picked| ==> picked[k].series == series
    ensures forall s :: CountSeries(rest, s) == CountSeries(pool, s) - (if s == series then |picked| else 0)
  {
    picked := [];
    rest := pool;
    var n := 0;
    while n < count
      invariant 0 <= n == |picked| && n <= Max(count, 0)
      invariant multiset(picked) + multiset(rest) == multiset(pool)
      invariant forall s :: CountSeries(rest, s) == CountSeries(pool, s) - (if s == series then n else 0)
      invariant forall k :: 0 <= k < |picked| ==> picked[k].series == series
      decreases count - n
    {
      if chosen :| chosen in rest && chosen.series == series {
        forall s ensures CountSeries(RemoveFirst(rest, chosen), s) + (if chosen.series == s then 1 else 0) ==
          CountSeries(rest, s)
        {
          CountSeriesRemove(rest, chosen, s);
        }
        picked := picked + [chosen];
        rest := RemoveFirst(rest, chosen);
        n := n + 1;
      } else {
        CountSeriesZero(rest, series);
        break;
      }
    }
  }

  /** Total of the request counts, negative counts picking nothing. */
  function SumCounts(requests: seq<RequestItem>): nat {
    if requests == [] then 0
    else SumCounts(requests[..|requests| - 1]) + Max(requests[|requests| - 1].count, 0)
  }

  /** How many episodes of `series` the requests ask for in all, negative
      counts asking for none. */
  function Demand(requests: seq<RequestItem>, series: string): nat {
    if requests == [] then 0
    else
      var last := requests[|requests| - 1];
      Demand(requests[..|requests| - 1], series) + (if last.series == series then Max(last.count, 0) else 0)
  }

  /** One request of the phase: adding its picks to the earlier ones keeps
      every series' count conserved and equal to the granted demand. */
  lemma GrantRequest(selected: seq<Video>, picked: seq<Video>, left: seq<Video>, rest: seq<Video>,
                     pool: seq<Video>, done: seq<RequestItem>, r: RequestItem)
    requires forall s :: CountSeries(selected, s) + CountSeries(rest, s) == CountSeries(pool, s)
    requires forall s :: CountSeries(selected, s) == Min(Demand(done, s), CountSeries(pool, s))
    requires |picked| == Min(Max(r.count, 0), CountSeries(rest, r.series))
    requires forall k :: 0 <= k < |picked| ==> picked[k].series == r.series
    requires forall s :: CountSeries(left, s) == CountSeries(rest, s) - (if s == r.series then |picked| else 0)
    ensures forall s :: CountSeries(selected + picked, s) + CountSeries(left, s) == CountSeries(pool, s)
    ensures forall s :: CountSeries(selected + picked, s) == Min(Demand(done + [r], s), CountSeries(pool, s))
  {
    assert (done + [r])[..|done|] == done;
    forall s ensures CountSeries(selected + picked, s) + CountSeries(left, s) == CountSeries(pool, s) &&
      CountSeries(selected + picked, s) == Min(Demand(done + [r], s), CountSeries(pool, s))
    {
      CountSeriesAppend(selected, picked, s);
      CountSeriesUniform(picked, r.series, s);
      if s == r.series {
        GrantStep(CountSeries(selected, s), Demand(done, s), CountSeries(pool, s), r.count);
      }
    }
  }

  /** The requests ask for no more than their total count. */
  lemma {:induction false} DemandAtMostSum(requests: seq<RequestItem>, series: string)
    ensures Demand(requests, series) <= SumCounts(requests)
    ensures Demand(requests, series) > 0 ==> series in RequestedSeries(requests)
  {
    if requests != [] {
      var init := requests[..|requests| - 1];
      DemandAtMostSum(init, series);
      if Demand(init, series) > 0 {
        var k :| 0 <= k < |init| && init[k].series == series;
        assert requests[k] == init[k];
      }
    }
  }

  /** Counting a series over a concatenation. */
  lemma {:induction false} CountSeriesAppend(a: seq<Video>, b: seq<Video>, series: string)
    ensures CountSeries(a + b, series) == CountSeries(a, series) + CountSeries(b, series)
  {
    if a == [] {
      assert a + b == b;
    } else {
      assert (a + b)[1..] == a[1..] + b;
      CountSeriesAppend(a[1..], b, series);
    }
  }

  /** Episodes all of one series count for that series only. */
  lemma {:induction false} CountSeriesUniform(vs: seq<Video>, series: string, s: string)
    requires forall k :: 0 <= k < |vs| ==> vs[k].series == series
    ensures CountSeries(vs, s) == if s == series then |vs| else 0
  {
    if vs != [] {
      CountSeriesUniform(vs[1..], series, s);
    }
  }

  /** A request for `count` more of a series granted min(demand, available)
      so far gets min(count, what is left), which grants min(demand + count,
      available) in all. */
  lemma GrantStep(granted: int, demand: int, available: int, count: int)
    requires 0 <= demand && granted == Min(demand, available) && granted <= available
    ensures granted + Min(Max(count, 0), available - granted) == Min(demand + Max(count, 0), available)
  {
  }

  /** The request phase: each request in turn draws from what the earlier
      ones left.  Each series ends with min(total asked for it, its positively
      weighted candidates) picks, whatever the order of the requests, and
      nothing outside the requested series is picked. */
  method FulfillRequests(pool: seq<Video>, requests: seq<RequestItem>) returns (selected: seq<Video>, rest: seq<Video>)
    ensures multiset(selected) + multiset(rest) == multiset(pool)
    ensures forall s :: CountSeries(selected, s) == Min(Demand(requests, s), CountSeries(pool, s))
    ensures |selected| <= SumCounts(requests)
    ensures forall k :: 0 <= k < |selected| ==> selected[k].series in RequestedSeries(requests)
  {
    selected := [];
    rest := pool;
    var i := 0;
    while i < |requests|
      invariant 0 <= i <= |requests|
      invariant multiset(selected) + multiset(rest) == multiset(pool)
      invariant forall s :: CountSeries(selected, s) + CountSeries(rest, s) == CountSeries(pool, s)
      invariant forall s :: CountSeries(selected, s) == Min(Demand(requests[..i], s), CountSeries(pool, s))
      invariant |selected| <= SumCounts(requests[..i])
      invariant forall k :: 0 <= k < |selected| ==> selected[k].series in RequestedSeries(requests)
    {
      assert requests[..i + 1] == requests[..i] + [requests[i]];
      var picked, left := FulfillRequest(rest, requests[i].series, requests[i].count);
      assert requests[i].series in RequestedSeries(requests);
      GrantRequest(selected, picked, left, rest, pool, requests[..i], requests[i]);
      selected := selected + picked;
      rest := left;
      i := i + 1;
    }
    assert requests[..i] == requests;
  }

  /** The (series, season) pairs of a list of episodes. */
  function SeasonSet(vs: seq<Video>): set<(string, int)> {
    set v | v in vs :: SeriesSeason(v)
  }

  /** The candidates whose (series, season) is not yet used, in order. */
  function Diverse(pool: seq<Video>, used: set<(string, int)>): (r: seq<Video>)
    ensures forall v :: v in r <==> v in pool && SeriesSeason(v) !in used
  {
    if pool == [] then []
    else
      assert pool == [pool[0]] + pool[1..];
      var rest := Diverse(pool[1..], used);
      if SeriesSeason(pool[0]) !in used then [pool[0]] + rest else rest
  }

  /** What the fill loop keeps: the picks extend `selected0` and come from
      the pool, the total is within tolerance once something was picked, and
      a repeated (series, season) pair is only drawn below the minimum. */
  ghost predicate Filling(pool: seq<Video>, selected0: seq<Video>, selected: seq<Video>, rest: seq<Video>,
                          dropped: seq<Video>, used: set<(string, int)>, total: int, available: int,
                          minEpisodes: int, maxEpisodes: int)
  {
    selected0 <= selected && |selected| <= Max(|selected0|, maxEpisodes) &&
    multiset(selected[|selected0|..]) + multiset(rest) + multiset(dropped) == multiset(pool) &&
    used == SeasonSet(selected) && total == TotalDuration(selected) &&
    (|selected| > |selected0| ==> total <= available + RuntimeTolerance) &&
    forall k :: |selected0| <= k < |selected| && SeriesSeason(selected[k]) in SeasonSet(selected[..k]) ==>
      k < minEpisodes
  }

  /** No episode has a negative duration. */
  predicate NonNegativeDurations(vs: seq<Video>) {
    forall v :: v in vs ==> v.durationSeconds >= 0
  }

  /** Why the fill phase passed over a candidate: it repeats a used (series,
      season) pair once the minimum is met, or it does not fit the runtime. */
  predicate PassedOver(v: Video, selected: seq<Video>, available: int, minEpisodes: int) {
    (SeriesSeason(v) in SeasonSet(selected) && |selected| >= minEpisodes) ||
    TotalDuration(selected) + v.durationSeconds > available + RuntimeTolerance
  }

  /** What the fill loop knows of the candidates it is done with: a dropped
      draw still does not fit, as the total only grows; and once it stops, it
      either reached the target runtime or has nothing left to draw. */
  ghost predicate Settling(pool: seq<Video>, selected0: seq<Video>, selected: seq<Video>, rest: seq<Video>,
                           dropped: seq<Video>, used: set<(string, int)>, total: int, available: int,
                           minEpisodes: int, stop: bool)
  {
    (NonNegativeDurations(pool) ==>
      forall v :: v in dropped ==> total + v.durationSeconds > available + RuntimeTolerance) &&
    (stop ==>
      (|selected| > |selected0| && |selected| >= minEpisodes && Abs(total - available) < RuntimeTolerance) ||
      (forall v :: v in rest ==> SeriesSeason(v) in used && |selected| >= minEpisodes))
  }

  /** One draw of the fill loop (`random.choice`): from the candidates of a
      (series, season) pair not used yet, or from all of them while below the
      minimum; None when that population is empty. */
  method Draw(rest: seq<Video>, used: set<(string, int)>, count: int, minEpisodes: int)
    returns (chosen: Option<Video>)
    ensures chosen.Some? ==> chosen.value in rest && (SeriesSeason(chosen.value) in used ==> count < minEpisodes)
    ensures chosen.None? ==> (forall v :: v in rest ==> SeriesSeason(v) in used) && (count < minEpisodes ==> rest == [])
  {
    var population := Diverse(rest, used);
    if population == [] && count < minEpisodes {
      population := rest;
    }
    if population == [] {
      return None;
    }
    assert population[0] in population;
    var v :| v in population;
    return Some(v);
  }

  /** Keeping a draw that fits the runtime, and whose (series, season) pair
      is new unless below the minimum, keeps the fill loop's invariant. */
  lemma KeepDrawn(pool: seq<Video>, selected0: seq<Video>, selected: seq<Video>, rest: seq<Video>,
                  dropped: seq<Video>, used: set<(string, int)>, total: int, available: int,
                  minEpisodes: int, maxEpisodes: int, chosen: Video)
    requires |selected| < maxEpisodes && chosen in rest
    requires SeriesSeason(chosen) in used ==> |selected| < minEpisodes
    requires total + chosen.durationSeconds <= available + RuntimeTolerance
    requires Filling(pool, selected0, selected, rest, dropped, used, total, available, minEpisodes, maxEpisodes)
    ensures Filling(pool, selected0, selected + [chosen], RemoveFirst(rest, chosen), dropped,
                    used + {SeriesSeason(chosen)}, total + chosen.durationSeconds, available, minEpisodes, maxEpisodes)
  {
    MoveDrawn(selected[|selected0|..], rest, dropped, chosen, pool);
    AppendSelected(selected0, selected, chosen, minEpisodes, used);
    TotalDurationAppend(selected, chosen);
  }

  /** Dropping a draw that does not fit keeps the fill loop's invariant. */
  lemma DropDrawn(pool: seq<Video>, selected0: seq<Video>, selected: seq<Video>, rest: seq<Video>,
                  dropped: seq<Video>, used: set<(string, int)>, total: int, available: int,
                  minEpisodes: int, maxEpisodes: int, chosen: Video)
    requires chosen in rest
    requires Filling(pool, selected0, selected, rest, dropped, used, total, available, minEpisodes, maxEpisodes)
    ensures Filling(pool, selected0, selected, RemoveFirst(rest, chosen), dropped + [chosen], used, total,
                    available, minEpisodes, maxEpisodes)
  {
    MoveDrawn(selected[|selected0|..], rest, dropped, chosen, pool);
  }

  /** The fill phase.  While fewer than `maxEpisodes` are selected it draws
      from the candidates of an unused (series, season), or from all
      candidates while below `minEpisodes`; a draw is kept when the total stays
      within the available runtime plus the tolerance and dropped from the pool
      either way; it stops once the minimum is met and the total is within the
      tolerance of the available runtime. */
  method FillSlots(pool: seq<Video>, selected0: seq<Video>, available: int, minEpisodes: int, maxEpisodes: int)
    returns (selected: seq<Video>)
    ensures selected0 <= selected
    ensures |selected| <= Max(|selected0|, maxEpisodes)
    ensures multiset(selected[|selected0|..]) <= multiset(pool)
    ensures |selected| > |selected0| ==> TotalDuration(selected) <= available + RuntimeTolerance
    ensures forall k :: |selected0| <= k < |selected| && SeriesSeason(selected[k]) in SeasonSet(selected[..k]) ==>
      k < minEpisodes
    ensures |selected| >= maxEpisodes ||
      (|selected| > |selected0| && |selected| >= minEpisodes &&
       Abs(TotalDuration(selected) - available) < RuntimeTolerance) ||
      (NonNegativeDurations(pool) ==>
        forall v :: v in multiset(pool) - multiset(selected[|selected0|..]) ==>
          PassedOver(v, selected, available, minEpisodes))
  {
    selected := selected0;
    var rest := pool;
    var used := SeasonSet(selected0);
    var total := TotalDuration(selected0);
    ghost var dropped: seq<Video> := [];
    assert selected[|selected0|..] == [];
    var stop := false;
    while |selected| < maxEpisodes && !stop
      invariant Filling(pool, selected0, selected, rest, dropped, used, total, available, minEpisodes, maxEpisodes)
      invariant Settling(pool, selected0, selected, rest, dropped, used, total, available, minEpisodes, stop)
      decreases |rest|, !stop
    {
      selected, rest, used, total, dropped, stop :=
        FillStep(pool, selected0, selected, rest, used, total, dropped, available, minEpisodes, maxEpisodes);
    }
    assert multiset(selected[|selected0|..]) <= multiset(pool);
    if |selected| < maxEpisodes && NonNegativeDurations(pool) {
      PassedOverAtExit(pool, selected0, selected, rest, dropped, used, total, available, minEpisodes, maxEpisodes);
    }
  }

  /** One turn of the fill loop: a draw, kept or dropped, or the stop when
      there is nothing left to draw. */
  method FillStep(pool: seq<Video>, selected0: seq<Video>, selected: seq<Video>, rest: seq<Video>,
                  used: set<(string, int)>, total: int, ghost dropped: seq<Video>, available: int,
                  minEpisodes: int, maxEpisodes: int)
    returns (selected': seq<Video>, rest': seq<Video>, used': set<(string, int)>, total': int,
             ghost dropped': seq<Video>, stop: bool)
    requires |selected| < maxEpisodes
    requires Filling(pool, selected0, selected, rest, dropped, used, total, available, minEpisodes, maxEpisodes)
    requires Settling(pool, selected0, selected, rest, dropped, used, total, available, minEpisodes, false)
    ensures Filling(pool, selected0, selected', rest', dropped', used', total', available, minEpisodes, maxEpisodes)
    ensures Settling(pool, selected0, selected', rest', dropped', used', total', available, minEpisodes, stop)
    ensures |rest'| < |rest| || (stop && rest' == rest)
  {
    selected', rest', used', total', dropped', stop := selected, rest, used, total, dropped, false;
    var drawn := Draw(rest, used, |selected|, minEpisodes);
    if drawn.None? {
      stop := true;
    } else {
      var chosen := drawn.value;
      var newTotal := total + chosen.durationSeconds;
      if newTotal <= available + RuntimeTolerance {
        KeepDrawn(pool, selected0, selected, rest, dropped, used, total, available, minEpisodes, maxEpisodes,
                  chosen);
        SettleDrawn(pool, selected0, selected, rest, dropped, used, total, available, minEpisodes, maxEpisodes,
                    chosen, true);
        selected' := selected + [chosen];
        total' := newTotal;
        used' := used + {SeriesSeason(chosen)};
        rest' := RemoveFirst(rest, chosen);
        stop := |selected'| >= minEpisodes && Abs(newTotal - available) < RuntimeTolerance;
      } else {
        DropDrawn(pool, selected0, selected, rest, dropped, used, total, available, minEpisodes, maxEpisodes,
                  chosen);
        SettleDrawn(pool, selected0, selected, rest, dropped, used, total, available, minEpisodes, maxEpisodes,
                    chosen, false);
        dropped' := dropped + [chosen];
        rest' := RemoveFirst(rest, chosen);
      }
    }
  }

  /** A draw keeps the first half of `Settling`: a kept draw only raises the
      total, a dropped one does not fit it. */
  lemma SettleDrawn(pool: seq<Video>, selected0: seq<Video>, selected: seq<Video>, rest: seq<Video>,
                    dropped: seq<Video>, used: set<(string, int)>, total: int, available: int,
                    minEpisodes: int, maxEpisodes: int, chosen: Video, keep: bool)
    requires chosen in rest
    requires keep <==> total + chosen.durationSeconds <= available + RuntimeTolerance
    requires Filling(pool, selected0, selected, rest, dropped, used, total, available, minEpisodes, maxEpisodes)
    requires Settling(pool, selected0, selected, rest, dropped, used, total, available, minEpisodes, false)
    ensures Settling(pool, selected0, if keep then selected + [chosen] else selected, RemoveFirst(rest, chosen),
                     if keep then dropped else dropped + [chosen],
                     if keep then used + {SeriesSeason(chosen)} else used,
                     if keep then total + chosen.durationSeconds else total,
                     available, minEpisodes,
                     keep && |selected| + 1 >= minEpisodes &&
                     Abs(total + chosen.durationSeconds - available) < RuntimeTolerance)
  {
    if NonNegativeDurations(pool) {
      assert multiset(pool)[chosen] >= multiset(rest)[chosen] > 0;
      assert chosen in pool;
    }
  }

  /** When the fill loop stops early, every candidate it did not pick was
      passed over: what is left repeats a used pair past the minimum, and what
      it dropped does not fit. */
  lemma PassedOverAtExit(pool: seq<Video>, selected0: seq<Video>, selected: seq<Video>, rest: seq<Video>,
                         dropped: seq<Video>, used: set<(string, int)>, total: int, available: int,
                         minEpisodes: int, maxEpisodes: int)
    requires NonNegativeDurations(pool)
    requires Filling(pool, selected0, selected, rest, dropped, used, total, available, minEpisodes, maxEpisodes)
    requires Settling(pool, selected0, selected, rest, dropped, used, total, available, minEpisodes, true)
    ensures (|selected| > |selected0| && |selected| >= minEpisodes &&
             Abs(TotalDuration(selected) - available) < RuntimeTolerance) ||
      forall v :: v in multiset(pool) - multiset(selected[|selected0|..]) ==>
        PassedOver(v, selected, available, minEpisodes)
  {
    var picked := selected[|selected0|..];
    forall v | v in multiset(pool) - multiset(picked)
      ensures v in rest || v in dropped
    {
      assert multiset(pool)[v] == multiset(picked)[v] + multiset(rest)[v] + multiset(dropped)[v];
    }
  }

  /** A draw leaves the pool for the picked or the dropped list. */
  lemma MoveDrawn(picked: seq<Video>, rest: seq<Video>, dropped: seq<Video>, x: Video, pool: seq<Video>)
    requires x in rest
    requires multiset(picked) + multiset(rest) + multiset(dropped) == multiset(pool)
    ensures multiset(picked + [x]) + multiset(RemoveFirst(rest, x)) + multiset(dropped) == multiset(pool)
    ensures multiset(picked) + multiset(RemoveFirst(rest, x)) + multiset(dropped + [x]) == multiset(pool)
  {
  }

  /** Appending a draw keeps the slice bookkeeping of the fill phase. */
  lemma AppendSelected(selected0: seq<Video>, selected: seq<Video>, chosen: Video, minEpisodes: int,
                       used: set<(string, int)>)
    requires selected0 <= selected && used == SeasonSet(selected)
    requires SeriesSeason(chosen) in used ==> |selected| < minEpisodes
    requires forall k :: |selected0| <= k < |selected| && SeriesSeason(selected[k]) in SeasonSet(selected[..k]) ==>
      k < minEpisodes
    ensures var s := selected + [chosen];
      selected0 <= s && s[|selected0|..] == selected[|selected0|..] + [chosen] &&
      SeasonSet(s) == used + {SeriesSeason(chosen)} &&
      forall k :: |selected0| <= k < |s| && SeriesSeason(s[k]) in SeasonSet(s[..k]) ==> k < minEpisodes
  {
    var s := selected + [chosen];
    assert s[..|selected|] == selected;
    forall k | |selected0| <= k < |s| && SeriesSeason(s[k]) in SeasonSet(s[..k]) ensures k < minEpisodes {
      if k < |selected| {
        assert s[k] == selected[k] && s[..k] == selected[..k];
      }
    }
  }

  /** `_select_episodes`: the request phase, then the fill phase, both
      drawing from the candidates whose weight is positive. */
  method SelectEpisodes(candidates: seq<Video>, weights: map<int, real>, available: int,
                        minEpisodes: int, maxEpisodes: int, requests: seq<RequestItem>)
    returns (selected: seq<Video>)
    ensures multiset(selected) <= multiset(candidates)
    ensures forall k :: 0 <= k < |selected| ==> selected[k].id in weights && weights[selected[k].id] > 0.0
    ensures |selected| <= Max(SumCounts(requests), maxEpisodes)
    ensures SumCounts(requests) == 0 ==>
      (selected != [] ==> TotalDuration(selected) <= available + RuntimeTolerance) &&
      forall k :: 0 <= k < |selected| && SeriesSeason(selected[k]) in SeasonSet(selected[..k]) ==> k < minEpisodes
    ensures RequestsFirst(selected, requests, PositiveWeighted(candidates, weights))
    ensures |selected| >= maxEpisodes ||
      (selected != [] && |selected| >= minEpisodes && Abs(TotalDuration(selected) - available) < RuntimeTolerance) ||
      (NonNegativeDurations(candidates) ==>
        forall v :: v in multiset(PositiveWeighted(candidates, weights)) - multiset(selected) ==>
          PassedOver(v, selected, available, minEpisodes))
  {
    var valid := PositiveWeighted(candidates, weights);
    var picked, rest := FulfillRequests(valid, requests);
    selected := FillSlots(rest, picked, available, minEpisodes, maxEpisodes);
    RequestPhaseFirst(picked, selected, requests, valid);
    DrawnFromPool(picked, rest, valid, selected);
    PositivelyWeighted(selected, candidates, weights);
    SelectionExit(candidates, valid, picked, rest, selected, available, minEpisodes, maxEpisodes);
    if SumCounts(requests) == 0 {
      NoRequestsFill(picked, selected, available, minEpisodes);
    }
  }

  /** With nothing requested the fill phase's guarantees cover the whole selection. */
  lemma NoRequestsFill(picked: seq<Video>, selected: seq<Video>, available: int, minEpisodes: int)
    requires |picked| == 0 && picked <= selected
    requires |selected| > |picked| ==> TotalDuration(selected) <= available + RuntimeTolerance
    requires forall k :: |picked| <= k < |selected| && SeriesSeason(selected[k]) in SeasonSet(selected[..k]) ==>
      k < minEpisodes
    ensures selected != [] ==> TotalDuration(selected) <= available + RuntimeTolerance
    ensures forall k :: 0 <= k < |selected| && SeriesSeason(selected[k]) in SeasonSet(selected[..k]) ==> k < minEpisodes
  {
  }

  /** The fill phase's exit guarantee, restated over the whole candidate list. */
  lemma SelectionExit(candidates: seq<Video>, valid: seq<Video>, picked: seq<Video>, rest: seq<Video>,
                      selected: seq<Video>, available: int, minEpisodes: int, maxEpisodes: int)
    requires multiset(valid) <= multiset(candidates)
    requires multiset(picked) + multiset(rest) == multiset(valid)
    requires picked <= selected
    requires |selected| >= maxEpisodes ||
      (|selected| > |picked| && |selected| >= minEpisodes &&
       Abs(TotalDuration(selected) - available) < RuntimeTolerance) ||
      (NonNegativeDurations(rest) ==>
        forall v :: v in multiset(rest) - multiset(selected[|picked|..]) ==>
          PassedOver(v, selected, available, minEpisodes))
    ensures |selected| >= maxEpisodes ||
      (selected != [] && |selected| >= minEpisodes && Abs(TotalDuration(selected) - available) < RuntimeTolerance) ||
      (NonNegativeDurations(candidates) ==>
        forall v :: v in multiset(valid) - multiset(selected) ==> PassedOver(v, selected, available, minEpisodes))
  {
    if NonNegativeDurations(candidates) {
      LeftOver(picked, rest, valid, selected);
      SubPoolNonNegative(valid, candidates);
      SubPoolNonNegative(rest, valid);
    }
  }

  /** The selection opens with the request phase: a prefix holding, for
      every series, as many picks as were asked for and the pool has, all
      of them of requested series. */
  ghost predicate RequestsFirst(selected: seq<Video>, requests: seq<RequestItem>, pool: seq<Video>) {
    exists n :: 0 <= n <= |selected| &&
                (forall s :: CountSeries(selected[..n], s) == Min(Demand(requests, s), CountSeries(pool, s))) &&
                forall k :: 0 <= k < n ==> selected[k].series in RequestedSeries(requests)
  }

  /** The request phase's picks stay at the head of the selection. */
  lemma RequestPhaseFirst(picked: seq<Video>, selected: seq<Video>, requests: seq<RequestItem>, pool: seq<Video>)
    requires picked <= selected
    requires forall s :: CountSeries(picked, s) == Min(Demand(requests, s), CountSeries(pool, s))
    requires forall k :: 0 <= k < |picked| ==> picked[k].series in RequestedSeries(requests)
    ensures RequestsFirst(selected, requests, pool)
  {
    assert selected[..|picked|] == picked;
  }

  /** Part of a pool with no negative duration has none either. */
  lemma SubPoolNonNegative(sub: seq<Video>, pool: seq<Video>)
    requires multiset(sub) <= multiset(pool)
    requires NonNegativeDurations(pool)
    ensures NonNegativeDurations(sub)
  {
    forall v | v in sub ensures v.durationSeconds >= 0 {
      assert v in multiset(sub);
      assert v in pool;
    }
  }

  /** The requested picks followed by draws from the rest come from the pool. */
  lemma DrawnFromPool(picked: seq<Video>, rest: seq<Video>, pool: seq<Video>, selected: seq<Video>)
    requires multiset(picked) + multiset(rest) == multiset(pool)
    requires picked <= selected && multiset(selected[|picked|..]) <= multiset(rest)
    ensures multiset(selected) <= multiset(pool)
  {
    assert selected == picked + selected[|picked|..];
  }

  /** What the fill phase left of its pool is what the whole selection left
      of the candidates. */
  lemma LeftOver(picked: seq<Video>, rest: seq<Video>, pool: seq<Video>, selected: seq<Video>)
    requires multiset(picked) + multiset(rest) == multiset(pool)
    requires picked <= selected
    ensures multiset(pool) - multiset(selected) == multiset(rest) - multiset(selected[|picked|..])
  {
    assert selected == picked + selected[|picked|..];
  }

  /** Whatever is drawn from the positively weighted candidates has a positive weight. */
  lemma PositivelyWeighted(selected: seq<Video>, candidates: seq<Video>, weights: map<int, real>)
    requires multiset(selected) <= multiset(PositiveWeighted(candidates, weights))
    ensures forall k :: 0 <= k < |selected| ==> selected[k].id in weights && weights[selected[k].id] > 0.0
  {
    forall k | 0 <= k < |selected| ensures selected[k].id in weights && weights[selected[k].id] > 0.0 {
      assert selected[k] in multiset(selected);
      assert selected[k] in PositiveWeighted(candidates, weights);
    }
  }

  // ---------------------------------------------------------------------------
  // _create_session and generate_lineup
  // ---------------------------------------------------------------------------

  /** The first session of the table planned for `day`. */
  function SessionOn(sessions: seq<Session>, day: int): (r: Option<Session>)
    ensures r.None? <==> forall k :: 0 <= k < |sessions| ==> sessions[k].showDate != day
    ensures r.Some? ==> r.value in sessions && r.value.showDate == day
  {
    if sessions == [] then None
    else if sessions[0].showDate == day then Some(sessions[0])
    else
      assert forall k :: 1 <= k < |sessions| ==> sessions[k] == sessions[1..][k - 1];
      SessionOn(sessions[1..], day)
  }

  /** The play rows `_create_session` writes: slot k + 1 holds the k-th
      selected video, with consecutive ids from `firstId`. */
  function SessionPlays(firstId: int, sessionId: int, selected: seq<Video>): (r: seq<PlayHistory>)
    ensures |r| == |selected|
    ensures forall k :: 0 <= k < |r| ==> r[k] == NewPlay(firstId + k, sessionId, selected[k].id, k + 1)
  {
    if selected == [] then []
    else
      var init := SessionPlays(firstId, sessionId, selected[..|selected| - 1]);
      init + [NewPlay(firstId + |selected| - 1, sessionId, selected[|selected| - 1].id, |selected|)]
  }

  /** `_create_session`: a planned session whose total is the sum of the
      selected durations, then one unplayed row per selected video in slot
      order 1, 2, ... */
  method CreateSession(db: Database, showDate: int, selected: seq<Video>, introPath: Option<string>,
                       outroPath: Option<string>, now: int)
    returns (sessionId: int)
    requires db.Valid()
    requires forall k :: 0 <= k < |selected| ==> selected[k] in db.videos
    modifies db
    ensures db.Valid()
    ensures sessionId == old(db.nextSessionId)
    ensures db.sessions == old(db.sessions) +
      [Session(sessionId, showDate, Planned, now, introPath, outroPath, Some(TotalDuration(selected)))]
    ensures db.plays == old(db.plays) + SessionPlays(old(db.nextPlayId), sessionId, selected)
    ensures db.videos == old(db.videos) && db.feedback == old(db.feedback)
    ensures VideosExist(old(db.videos), old(db.plays)) ==> VideosExist(db.videos, db.plays)
  {
    sessionId := db.AddSession(showDate, Planned, now, introPath, outroPath, Some(TotalDuration(selected)));
    ghost var plays0 := db.plays;
    WritePlays(db, sessionId, selected);
    if VideosExist(old(db.videos), old(db.plays)) {
      SessionPlaysExist(db.videos, plays0, old(db.nextPlayId), sessionId, selected);
    }
  }

  /** The `PlayHistory` inserts of `_create_session`, one per selected video. */
  method WritePlays(db: Database, sessionId: int, selected: seq<Video>)
    requires db.Valid()
    modifies db
    ensures db.Valid()
    ensures db.plays == old(db.plays) + SessionPlays(old(db.nextPlayId), sessionId, selected)
    ensures db.sessions == old(db.sessions) && db.videos == old(db.videos) && db.feedback == old(db.feedback)
  {
    var firstId := db.nextPlayId;
    var k := 0;
    while k < |selected|
      invariant 0 <= k <= |selected|
      invariant db.Valid()
      invariant db.nextPlayId == firstId + k
      invariant db.plays == old(db.plays) + SessionPlays(firstId, sessionId, selected[..k])
      invariant db.sessions == old(db.sessions) && db.videos == old(db.videos) && db.feedback == old(db.feedback)
    {
      SessionPlaysSnoc(firstId, sessionId, selected, k);
      var _ := db.AddPlay(sessionId, selected[k].id, k + 1);
      k := k + 1;
    }
    assert selected[..k] == selected;
  }

  /** The rows of one more selected video. */
  lemma SessionPlaysSnoc(firstId: int, sessionId: int, selected: seq<Video>, k: nat)
    requires k < |selected|
    ensures SessionPlays(firstId, sessionId, selected[..k + 1]) ==
      SessionPlays(firstId, sessionId, selected[..k]) + [NewPlay(firstId + k, sessionId, selected[k].id, k + 1)]
  {
    assert selected[..k + 1][..k] == selected[..k];
  }

  /** Rows written for videos of the library keep the foreign key. */
  lemma SessionPlaysExist(videos: seq<Video>, plays: seq<PlayHistory>, firstId: int, sessionId: int,
                          selected: seq<Video>)
    requires VideosExist(videos, plays)
    requires forall k :: 0 <= k < |selected| ==> selected[k] in videos
    ensures VideosExist(videos, plays + SessionPlays(firstId, sessionId, selected))
  {
    var added := SessionPlays(firstId, sessionId, selected);
    forall p | p in plays + added ensures GetVideoById(videos, p.videoId).Some? {
      if p !in plays {
        var k :| 0 <= k < |added| && added[k] == p;
        assert selected[k] in videos;
      }
    }
  }

  /** An episode the draw of `generate_lineup` may pick: enabled, requested
      or off cooldown, and not weighted to zero. */
  predicate Drawable(videos: seq<Video>, plays: seq<PlayHistory>, feedback: seq<Feedback>,
                     requests: seq<RequestItem>, cooldownDays: int, now: int, decay: int -> real, v: Video)
  {
    v in videos && !v.disabled && InPool(v, plays, RequestedSeries(requests), now - cooldownDays * SecondsPerDay) &&
    Weight(plays, feedback, v.id, now, decay) > 0.0
  }

  /** The draw of `generate_lineup`: requests, candidate pool, weights,
      boost and selection.  Empty when the pool or the selection is; it comes
      back empty only if no drawable episode fits the available runtime on
      its own. */
  method DrawLineup(videos: seq<Video>, plays: seq<PlayHistory>, feedback: seq<Feedback>, payload: Option<Payload>,
                    available: int, minEpisodes: int, maxEpisodes: int, cooldownDays: int, now: int,
                    decay: int -> real)
    returns (selected: seq<Video>)
    requires forall v :: v in videos ==> LastPlayDefined(plays, v.id)
    ensures forall k :: 0 <= k < |selected| ==> selected[k] in videos
    ensures selected == [] && maxEpisodes >= 1 && NonNegativeDurations(videos) ==>
      forall v :: Drawable(videos, plays, feedback, NormalizePayload(payload), cooldownDays, now, decay, v) ==>
        v.durationSeconds > available + RuntimeTolerance
  {
    var requests := NormalizePayload(payload);
    CandidatePoolContents(videos, plays, requests, cooldownDays, now);
    var candidates := BuildCandidatePool(videos, plays, requests, cooldownDays, now);
    if candidates == [] {
      return [];
    }
    var ids := VideoIds(candidates);
    assert forall k :: 0 <= k < |ids| ==> LastPlayDefined(plays, ids[k]) by {
      forall k | 0 <= k < |ids| ensures LastPlayDefined(plays, ids[k]) {
        assert candidates[k] in candidates;
      }
    }
    var weights := CalculateWeightsBatch(plays, feedback, ids, now, decay);
    assert forall k :: 0 <= k < |candidates| ==> candidates[k].id in weights by {
      forall k | 0 <= k < |candidates| ensures candidates[k].id in weights {
        assert ids[k] in ids;
      }
    }
    var boosted := ApplyRequestBoost(weights, requests, candidates);
    selected := SelectEpisodes(candidates, boosted, available, minEpisodes, maxEpisodes, requests);
    if selected == [] && maxEpisodes >= 1 && NonNegativeDurations(videos) {
      assert NonNegativeDurations(candidates);
      NothingFits(videos, plays, feedback, requests, cooldownDays, now, decay, candidates, weights, boosted,
                  selected, available, minEpisodes);
    }
    assert forall k :: 0 <= k < |selected| ==> selected[k] in videos by {
      forall k | 0 <= k < |selected| ensures selected[k] in videos {
        assert selected[k] in multiset(selected);
        assert selected[k] in candidates;
      }
    }
  }

  /** An empty selection from a non-empty slot budget means every drawable
      episode of the pool was passed over for its length. */
  lemma NothingFits(videos: seq<Video>, plays: seq<PlayHistory>, feedback: seq<Feedback>,
                    requests: seq<RequestItem>, cooldownDays: int, now: int, decay: int -> real,
                    candidates: seq<Video>, weights: map<int, real>, boosted: map<int, real>,
                    selected: seq<Video>, available: int, minEpisodes: int)
    requires candidates == PoolFilter(ListEpisodes(videos, None, None, false), plays, RequestedSeries(requests),
                                      now - cooldownDays * SecondsPerDay)
    requires forall k :: 0 <= k < |candidates| ==> candidates[k].id in weights
    requires forall id :: id in weights ==> weights[id] == Weight(plays, feedback, id, now, decay)
    requires boosted.Keys == weights.Keys
    requires forall id :: id in boosted ==> boosted[id] == Tripled(weights[id], Hits(requests, candidates, id))
    requires selected == []
    requires forall v :: v in multiset(PositiveWeighted(candidates, boosted)) - multiset(selected) ==>
      PassedOver(v, selected, available, minEpisodes)
    ensures forall v :: Drawable(videos, plays, feedback, requests, cooldownDays, now, decay, v) ==>
      v.durationSeconds > available + RuntimeTolerance
  {
    CandidatePoolContents(videos, plays, requests, cooldownDays, now);
    forall v | Drawable(videos, plays, feedback, requests, cooldownDays, now, decay, v)
      ensures v.durationSeconds > available + RuntimeTolerance
    {
      assert v in candidates;
      var k :| 0 <= k < |candidates| && candidates[k] == v;
      assert v.id in weights;
      TripledKeepsSign(weights[v.id], Hits(requests, candidates, v.id));
      assert v in PositiveWeighted(candidates, boosted);
      assert v in multiset(PositiveWeighted(candidates, boosted)) - multiset(selected);
      assert SeasonSet(selected) == {};
    }
  }

  /** `generate_lineup`.  An existing session for the day is returned as is;
      otherwise the candidate pool is built, weighed, boosted and drawn from,
      and a new session is written.  None, with nothing written, when the pool
      or the selection is empty.  Durations of the intro and outro files and
      the weight decay are parameters. */
  method GenerateLineup(db: Database, targetDay: int, targetMinutes: int, minEpisodes: int, maxEpisodes: int,
                        payload: Option<Payload>, introSeconds: int, outroSeconds: int,
                        introPath: Option<string>, outroPath: Option<string>, cooldownDays: int,
                        now: int, decay: int -> real)
    returns (sessionId: Option<int>)
    requires db.Valid()
    requires forall v :: v in db.videos ==> LastPlayDefined(db.plays, v.id)
    modifies db
    ensures db.Valid()
    ensures SessionOn(old(db.sessions), targetDay).Some? ==>
      sessionId == Some(SessionOn(old(db.sessions), targetDay).value.id) && db.sessions == old(db.sessions) &&
      db.plays == old(db.plays)
    ensures sessionId.None? ==> db.sessions == old(db.sessions) && db.plays == old(db.plays)
    ensures SessionOn(old(db.sessions), targetDay).None? && sessionId.Some? ==>
      sessionId.value == old(db.nextSessionId) && |db.sessions| == |old(db.sessions)| + 1 &&
      db.sessions == old(db.sessions) + [db.sessions[|old(db.sessions)|]] &&
      db.sessions[|old(db.sessions)|].id == sessionId.value &&
      db.sessions[|old(db.sessions)|].showDate == targetDay && db.sessions[|old(db.sessions)|].status == Planned &&
      |db.plays| > |old(db.plays)|
    ensures (SessionOn(old(db.sessions), targetDay).None? && sessionId.None? && maxEpisodes >= 1 &&
             NonNegativeDurations(old(db.videos))) ==>
      forall v :: Drawable(old(db.videos), old(db.plays), old(db.feedback), NormalizePayload(payload), cooldownDays,
                           now, decay, v) ==>
        v.durationSeconds > AvailableDuration(targetMinutes, introSeconds, outroSeconds) + RuntimeTolerance
    ensures db.videos == old(db.videos) && db.feedback == old(db.feedback)
    ensures VideosExist(old(db.videos), old(db.plays)) ==> VideosExist(db.videos, db.plays)
  {
    var available := AvailableDuration(targetMinutes, introSeconds, outroSeconds);
    var existing := SessionOn(db.sessions, targetDay);
    if existing.Some? {
      return Some(existing.value.id);
    }
    var selected := DrawLineup(db.videos, db.plays, db.feedback, payload, available, minEpisodes, maxEpisodes,
                               cooldownDays, now, decay);
    if selected == [] {
      return None;
    }
    var id := CreateSession(db, targetDay, selected, introPath, outroPath, now);
    sessionId := Some(id);
  }
}
