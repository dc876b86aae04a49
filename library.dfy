/**
 * The library service: queries over the video table (series listing,
 * filtered episode listing, lookups, random picks, per-series statistics)
 * and the enable/disable switch of a video.
 */
module Library {
  import opened Common
  import opened Models
  import opened Sorting
  import opened Store

  // ---------------------------------------------------------------------------
  // list_series
  // ---------------------------------------------------------------------------

  /** One row of the series listing. */
  datatype SeriesRow = SeriesRow(series: string, episodeCount: nat, totalDurationSeconds: int)

  function Enabled(vs: seq<Video>): (r: seq<Video>)
    ensures forall v :: v in r <==> v in vs && !v.disabled
    ensures |r| <= |vs|
  {
    if vs == [] then []
    else
      assert vs == [vs[0]] + vs[1..];
      if vs[0].disabled then Enabled(vs[1..]) else [vs[0]] + Enabled(vs[1..])
  }

  function CountSeries(vs: seq<Video>, s: string): nat {
    if vs == [] then 0 else (if vs[0].series == s then 1 else 0) + CountSeries(vs[1..], s)
  }

  function SumSeries(vs: seq<Video>, s: string): int {
    if vs == [] then 0 else (if vs[0].series == s then vs[0].durationSeconds else 0) + SumSeries(vs[1..], s)
  }

  function WithoutSeries(vs: seq<Video>, s: string): (r: seq<Video>)
    ensures |r| + CountSeries(vs, s) == |vs|
    ensures forall v :: v in r <==> v in vs && v.series != s
  {
    if vs == [] then []
    else
      assert vs == [vs[0]] + vs[1..];
      if vs[0].series == s then WithoutSeries(vs[1..], s) else [vs[0]] + WithoutSeries(vs[1..], s)
  }

  /** `GROUP BY series` over `vs`: one row per distinct series, in order of first appearance. */
  function Groups(vs: seq<Video>): (rows: seq<SeriesRow>)
    ensures forall k :: 0 <= k < |rows| ==>
      rows[k].episodeCount == CountSeries(vs, rows[k].series) > 0 &&
      rows[k].totalDurationSeconds == SumSeries(vs, rows[k].series)
    ensures forall i, j :: 0 <= i < j < |rows| ==> rows[i].series != rows[j].series
    decreases |vs|
  {
    if vs == [] then []
    else
      var s := vs[0].series;
      var tail := Groups(WithoutSeries(vs, s));
      GroupsTail(vs, s, tail);
      [SeriesRow(s, CountSeries(vs, s), SumSeries(vs, s))] + tail
  }

  lemma GroupsTail(vs: seq<Video>, s: string, tail: seq<SeriesRow>)
    requires vs != [] && s == vs[0].series
    requires forall k :: 0 <= k < |tail| ==>
      tail[k].episodeCount == CountSeries(WithoutSeries(vs, s), tail[k].series) > 0 &&
      tail[k].totalDurationSeconds == SumSeries(WithoutSeries(vs, s), tail[k].series)
    ensures CountSeries(vs, s) > 0
    ensures forall k :: 0 <= k < |tail| ==> tail[k].series != s
    ensures forall k :: 0 <= k < |tail| ==>
      tail[k].episodeCount == CountSeries(vs, tail[k].series) &&
      tail[k].totalDurationSeconds == SumSeries(vs, tail[k].series)
  {
    CountWithoutSame(vs, s);
    forall k | 0 <= k < |tail|
      ensures tail[k].series != s
      ensures tail[k].episodeCount == CountSeries(vs, tail[k].series)
      ensures tail[k].totalDurationSeconds == SumSeries(vs, tail[k].series)
    {
      CountWithoutOther(vs, s, tail[k].series);
    }
  }

  lemma {:induction false} CountWithoutSame(vs: seq<Video>, s: string)
    ensures CountSeries(WithoutSeries(vs, s), s) == 0
  {
    if vs != [] {
      CountWithoutSame(vs[1..], s);
    }
  }

  /** Every series of the input has a row. */
  lemma {:induction false} GroupsCover(vs: seq<Video>, v: Video)
    requires v in vs
    ensures exists k :: 0 <= k < |Groups(vs)| && Groups(vs)[k].series == v.series
    decreases |vs|
  {
    var s := vs[0].series;
    var rows := Groups(vs);
    if v.series == s {
      assert rows[0].series == v.series;
    } else {
      var rest := WithoutSeries(vs, s);
      GroupsCover(rest, v);
      var k :| 0 <= k < |Groups(rest)| && Groups(rest)[k].series == v.series;
      assert rows[k + 1] == Groups(rest)[k];
    }
  }

  lemma {:induction false} CountWithoutOther(vs: seq<Video>, s: string, t: string)
    requires s != t
    ensures CountSeries(WithoutSeries(vs, s), t) == CountSeries(vs, t)
    ensures SumSeries(WithoutSeries(vs, s), t) == SumSeries(vs, t)
  {
    if vs != [] {
      CountWithoutOther(vs[1..], s, t);
    }
  }

  function SumCounts(rows: seq<SeriesRow>): int {
    if rows == [] then 0 else rows[0].episodeCount + SumCounts(rows[1..])
  }

  function SumTotals(rows: seq<SeriesRow>): int {
    if rows == [] then 0 else rows[0].totalDurationSeconds + SumTotals(rows[1..])
  }

  function SumDurations(vs: seq<Video>): int {
    if vs == [] then 0 else vs[0].durationSeconds + SumDurations(vs[1..])
  }

  lemma {:induction false} SumWithout(vs: seq<Video>, s: string)
    ensures SumDurations(vs) == SumSeries(vs, s) + SumDurations(WithoutSeries(vs, s))
  {
    if vs != [] {
      SumWithout(vs[1..], s);
    }
  }

  /** The groups partition the rows: counts add up to the number of rows and
      per-series totals add up to the total duration. */
  lemma {:induction false} GroupsPartition(vs: seq<Video>)
    ensures SumCounts(Groups(vs)) == |vs|
    ensures SumTotals(Groups(vs)) == SumDurations(vs)
    decreases |vs|
  {
    if vs != [] {
      var s := vs[0].series;
      GroupsPartition(WithoutSeries(vs, s));
      SumWithout(vs, s);
    }
  }

  /** `list_series`: the enabled videos grouped by series with their episode
      count and summed duration. */
  function ListSeries(videos: seq<Video>): (rows: seq<SeriesRow>)
    ensures forall k :: 0 <= k < |rows| ==>
      rows[k].episodeCount == CountSeries(Enabled(videos), rows[k].series) > 0 &&
      rows[k].totalDurationSeconds == SumSeries(Enabled(videos), rows[k].series)
    ensures forall i, j :: 0 <= i < j < |rows| ==> rows[i].series != rows[j].series
  {
    Groups(Enabled(videos))
  }

  /** Every enabled video is counted exactly once in the series listing, and
      the per-series totals add up to the total enabled duration. */
  lemma ListSeriesPartition(videos: seq<Video>)
    ensures SumCounts(ListSeries(videos)) == |Enabled(videos)|
    ensures SumTotals(ListSeries(videos)) == SumDurations(Enabled(videos))
  {
    GroupsPartition(Enabled(videos));
  }

  /** Every series with an enabled video has a row in the listing. */
  lemma ListSeriesCovers(videos: seq<Video>, v: Video)
    requires v in videos && !v.disabled
    ensures exists k :: 0 <= k < |ListSeries(videos)| && ListSeries(videos)[k].series == v.series
  {
    var e := Enabled(videos);
    assert v in e;
    GroupsCover(e, v);
    var k :| 0 <= k < |Groups(e)| && Groups(e)[k].series == v.series;
    assert ListSeries(videos) == Groups(e);
    assert ListSeries(videos)[k].series == v.series;
  }

  // ---------------------------------------------------------------------------
  // list_episodes
  // ---------------------------------------------------------------------------

  /** `ORDER BY series, season, episode_code`. */
  predicate EpisodeLe(a: Video, b: Video) {
    (StringLe(a.series, b.series) && a.series != b.series) ||
    (a.series == b.series &&
      (a.season < b.season || (a.season == b.season && StringLe(a.episodeCode, b.episodeCode))))
  }

  lemma EpisodeOrderIsTotalPreorder()
    ensures TotalPreorder(EpisodeLe)
  {
    forall a: Video, b: Video ensures EpisodeLe(a, b) || EpisodeLe(b, a) {
      StringLeTotal(a.series, b.series);
      StringLeTotal(a.episodeCode, b.episodeCode);
    }
    forall a: Video, b: Video, c: Video | EpisodeLe(a, b) && EpisodeLe(b, c) ensures EpisodeLe(a, c) {
      if a.series != b.series && b.series != c.series {
        StringLeTransitive(a.series, b.series, c.series);
        if a.series == c.series {
          StringLeAntisymmetric(a.series, b.series);
        }
      }
      if a.series == b.series && b.series == c.series && a.season == b.season && b.season == c.season {
        StringLeTransitive(a.episodeCode, b.episodeCode, c.episodeCode);
      }
    }
  }

  /** The filters of `list_episodes`; an empty series name filters nothing. */
  predicate EpisodeMatches(v: Video, series: Option<string>, season: Option<int>, includeDisabled: bool) {
    (includeDisabled || !v.disabled) &&
    (series.None? || series.value == "" || v.series == series.value) &&
    (season.None? || v.season == season.value)
  }

  function FilterEpisodes(vs: seq<Video>, series: Option<string>, season: Option<int>, includeDisabled: bool): (r: seq<Video>)
    ensures forall v :: v in r <==> v in vs && EpisodeMatches(v, series, season, includeDisabled)
  {
    if vs == [] then []
    else
      assert vs == [vs[0]] + vs[1..];
      var rest := FilterEpisodes(vs[1..], series, season, includeDisabled);
      if EpisodeMatches(vs[0], series, season, includeDisabled) then [vs[0]] + rest else rest
  }

  /** `list_episodes`: exactly the matching videos, ordered by (series, season, episode code). */
  function ListEpisodes(videos: seq<Video>, series: Option<string>, season: Option<int>, includeDisabled: bool): (r: seq<Video>)
    ensures forall v :: v in r <==> v in videos && EpisodeMatches(v, series, season, includeDisabled)
    ensures SortedBy(r, EpisodeLe)
  {
    var matching := FilterEpisodes(videos, series, season, includeDisabled);
    EpisodeOrderIsTotalPreorder();
    SortSorted(matching, EpisodeLe);
    var r := Sort(matching, EpisodeLe);
    assert forall v :: v in r <==> v in matching by {
      forall v ensures v in r <==> v in matching {
        SortMembers(matching, EpisodeLe, v);
      }
    }
    r
  }

  // ---------------------------------------------------------------------------
  // Lookups
  // ---------------------------------------------------------------------------

  /** `get_video_by_id`: the first row with that id. */
  function GetVideoById(videos: seq<Video>, id: int): (r: Option<Video>)
    ensures r.None? <==> forall v :: v in videos ==> v.id != id
    ensures r.Some? ==> r.value in videos && r.value.id == id
  {
    if videos == [] then None
    else if videos[0].id == id then Some(videos[0])
    else
      assert videos == [videos[0]] + videos[1..];
      GetVideoById(videos[1..], id)
  }

  /** Every play row refers to an existing video (the `play_history.video_id`
      foreign key). */
  predicate VideosExist(videos: seq<Video>, plays: seq<PlayHistory>) {
    forall p :: p in plays ==> GetVideoById(videos, p.videoId).Some?
  }

  /** `get_video_by_path`: the first row with that path. */
  function GetVideoByPath(videos: seq<Video>, path: string): (r: Option<Video>)
    ensures r.None? <==> forall v :: v in videos ==> v.path != path
    ensures r.Some? ==> r.value in videos && r.value.path == path
    ensures r.Some? ==> exists k :: 0 <= k < |videos| && videos[k] == r.value &&
                                    forall j :: 0 <= j < k ==> videos[j].path != path
  {
    if videos == [] then None
    else if videos[0].path == path then Some(videos[0])
    else
      assert videos == [videos[0]] + videos[1..];
      var r := GetVideoByPath(videos[1..], path);
      assert r.Some? ==> exists k :: 1 <= k < |videos| && videos[k] == r.value &&
                                     forall j :: 0 <= j < k ==> videos[j].path != path by {
        if r.Some? {
          var k :| 0 <= k < |videos| - 1 && videos[1..][k] == r.value &&
                   forall j :: 0 <= j < k ==> videos[1..][j].path != path;
          assert videos[k + 1] == r.value;
        }
      }
      r
  }

  // ---------------------------------------------------------------------------
  // random_episode / random_episodes
  // ---------------------------------------------------------------------------

  /** The filters of `random_episode` that do not depend on the exclusion list.
      Plays are recent when they completed and started at or after `cutoff`. */
  predicate Playable(v: Video, series: Option<string>, minDuration: Option<int>, maxDuration: Option<int>,
                     plays: seq<PlayHistory>, feedback: seq<Feedback>, cutoff: int) {
    !v.disabled &&
    (series.None? || series.value == "" || v.series == series.value) &&
    (minDuration.None? || v.durationSeconds >= minDuration.value) &&
    (maxDuration.None? || v.durationSeconds <= maxDuration.value) &&
    !RecentlyCompleted(plays, v.id, cutoff) &&
    !HasNeverFeedback(plays, feedback, v.id)
  }

  /** `random_episode`: a uniformly chosen video that passes every filter, or
      None when no video passes them.  The choice is left open. */
  method RandomEpisode(videos: seq<Video>, plays: seq<PlayHistory>, feedback: seq<Feedback>,
                       series: Option<string>, minDuration: Option<int>, maxDuration: Option<int>,
                       excludeIds: set<int>, cooldownDays: int, now: int)
    returns (r: Option<Video>)
    ensures r.None? <==> forall v :: v in videos ==>
      (!Playable(v, series, minDuration, maxDuration, plays, feedback, now - cooldownDays * SecondsPerDay) ||
       v.id in excludeIds)
    ensures r.Some? ==> (r.value in videos && r.value.id !in excludeIds &&
      Playable(r.value, series, minDuration, maxDuration, plays, feedback, now - cooldownDays * SecondsPerDay))
  {
    var cutoff := now - cooldownDays * SecondsPerDay;
    if v :| v in videos && v.id !in excludeIds &&
           Playable(v, series, minDuration, maxDuration, plays, feedback, cutoff) {
      r := Some(v);
    } else {
      r := None;
    }
  }

  /** `random_episodes`: up to `count` picks of `random_episode`, each
      excluding the ids picked so far and, with `ensureDiversity`, every video
      of a season already picked. */
  method RandomEpisodes(videos: seq<Video>, plays: seq<PlayHistory>, feedback: seq<Feedback>,
                        count: int, series: Option<string>, minDuration: Option<int>, maxDuration: Option<int>,
                        cooldownDays: int, ensureDiversity: bool, now: int)
    returns (selected: seq<Video>)
    ensures |selected| <= Max(count, 0)
    ensures forall k :: 0 <= k < |selected| ==> (selected[k] in videos &&
      Playable(selected[k], series, minDuration, maxDuration, plays, feedback, now - cooldownDays * SecondsPerDay))
    ensures DistinctIds(selected)
    ensures ensureDiversity ==>
      forall i, j :: 0 <= i < j < |selected| ==> SeriesSeason(selected[i]) != SeriesSeason(selected[j])
    ensures |selected| < count ==>
      forall v :: (v in videos &&
                   Playable(v, series, minDuration, maxDuration, plays, feedback, now - cooldownDays * SecondsPerDay)) ==>
        v.id in Excluded(videos, selected, ensureDiversity)
  {
    selected := [];
    var excludeIds: set<int> := {};
    var n := 0;
    while n < count
      invariant 0 <= n && |selected| <= n
      invariant n <= Max(count, 0)
      invariant forall k :: 0 <= k < |selected| ==> (selected[k] in videos &&
        Playable(selected[k], series, minDuration, maxDuration, plays, feedback, now - cooldownDays * SecondsPerDay))
      invariant forall k :: 0 <= k < |selected| ==> selected[k].id in excludeIds
      invariant DistinctIds(selected)
      invariant ensureDiversity ==> forall k, v ::
        (0 <= k < |selected| && v in videos && SeriesSeason(v) == SeriesSeason(selected[k])) ==> v.id in excludeIds
      invariant ensureDiversity ==>
        forall i, j :: 0 <= i < j < |selected| ==> SeriesSeason(selected[i]) != SeriesSeason(selected[j])
      invariant excludeIds == Excluded(videos, selected, ensureDiversity)
      invariant |selected| < n ==>
        forall v :: (v in videos &&
                     Playable(v, series, minDuration, maxDuration, plays, feedback, now - cooldownDays * SecondsPerDay)) ==>
          v.id in excludeIds
    {
      var episode := RandomEpisode(videos, plays, feedback, series, minDuration, maxDuration,
                                   excludeIds, cooldownDays, now);
      if episode.None? {
        break;
      }
      var e := episode.value;
      assert (selected + [e])[..|selected|] == selected;
      selected := selected + [e];
      excludeIds := excludeIds + {e.id};
      if ensureDiversity {
        excludeIds := excludeIds + SameSeasonIds(videos, e.series, e.season);
      }
      n := n + 1;
    }
  }

  /** The ids `random_episodes` excludes after picking `selected`: the picks
      and, with diversity, every video of a picked season. */
  function Excluded(videos: seq<Video>, selected: seq<Video>, ensureDiversity: bool): set<int> {
    if selected == [] then {}
    else
      var last := selected[|selected| - 1];
      Excluded(videos, selected[..|selected| - 1], ensureDiversity) + {last.id} +
      (if ensureDiversity then SameSeasonIds(videos, last.series, last.season) else {})
  }

  /** With distinct ids in the table, a video is excluded exactly when it was
      picked or, with diversity, shares its season with a pick. */
  lemma {:induction false} ExcludedMeaning(videos: seq<Video>, selected: seq<Video>, ensureDiversity: bool, v: Video)
    requires DistinctIds(videos) && v in videos
    requires forall k :: 0 <= k < |selected| ==> selected[k] in videos
    ensures v.id in Excluded(videos, selected, ensureDiversity) <==>
      exists k :: 0 <= k < |selected| &&
        (selected[k] == v || (ensureDiversity && SeriesSeason(selected[k]) == SeriesSeason(v)))
  {
    if selected != [] {
      var init := selected[..|selected| - 1];
      var last := selected[|selected| - 1];
      ExcludedMeaning(videos, init, ensureDiversity, v);
      if v.id == last.id {
        assert v == last;
      }
      if ensureDiversity && v.id in SameSeasonIds(videos, last.series, last.season) {
        var w :| w in videos && w.series == last.series && w.season == last.season && w.id == v.id;
        assert w == v;
      }
      if exists k :: 0 <= k < |init| &&
          (init[k] == v || (ensureDiversity && SeriesSeason(init[k]) == SeriesSeason(v))) {
        var k :| 0 <= k < |init| && (init[k] == v || (ensureDiversity && SeriesSeason(init[k]) == SeriesSeason(v)));
        assert selected[k] == init[k];
      }
      if exists k :: 0 <= k < |selected| &&
          (selected[k] == v || (ensureDiversity && SeriesSeason(selected[k]) == SeriesSeason(v))) {
        var k :| 0 <= k < |selected| && (selected[k] == v || (ensureDiversity && SeriesSeason(selected[k]) == SeriesSeason(v)));
        if k < |init| {
          assert init[k] == selected[k];
        }
      }
    }
  }

  /** Ids of every video (enabled or not) of one season of one series. */
  function SameSeasonIds(videos: seq<Video>, series: string, season: int): (ids: set<int>)
    ensures forall v :: v in videos && v.series == series && v.season == season ==> v.id in ids
  {
    set v | v in videos && v.series == series && v.season == season :: v.id
  }

  // ---------------------------------------------------------------------------
  // get_series_stats
  // ---------------------------------------------------------------------------

  datatype SeriesStats = SeriesStats(
    series: string,
    episodeCount: nat,
    seasonCount: nat,
    seasons: seq<int>,
    avgDurationSeconds: int,
    totalDurationSeconds: int)

  predicate StrictlyIncreasing(s: seq<int>) {
    forall i, j :: 0 <= i < j < |s| ==> s[i] < s[j]
  }

  /** Inserts `x` into a strictly increasing sequence, unless already present. */
  function InsertSeason(x: int, s: seq<int>): (r: seq<int>)
    requires StrictlyIncreasing(s)
    ensures StrictlyIncreasing(r)
    ensures forall y :: y in r <==> y in s || y == x
  {
    if s == [] then [x]
    else
      IncreasingHead(s);
      if x < s[0] then
        ConsIncreasing(x, s);
        [x] + s
      else if x == s[0] then s
      else
        var r := InsertSeason(x, s[1..]);
        ConsIncreasing(s[0], r);
        [s[0]] + r
  }

  /** The head of a strictly increasing sequence is below everything after it. */
  lemma IncreasingHead(s: seq<int>)
    requires StrictlyIncreasing(s) && s != []
    ensures StrictlyIncreasing(s[1..])
    ensures forall y :: y in s ==> s[0] <= y
    ensures forall y :: y in s[1..] ==> s[0] < y
  {
    forall y | y in s[1..] ensures s[0] < y {
      var j :| 0 <= j < |s[1..]| && s[1..][j] == y;
      assert s[1..][j] == s[j + 1] && 0 < j + 1 < |s|;
    }
  }

  lemma ConsIncreasing(a: int, r: seq<int>)
    requires StrictlyIncreasing(r)
    requires forall y :: y in r ==> a < y
    ensures StrictlyIncreasing([a] + r)
    ensures forall y :: y in [a] + r <==> y == a || y in r
  {
    var t := [a] + r;
    forall i, j | 0 <= i < j < |t| ensures t[i] < t[j] {
      assert t[j] == r[j - 1] && r[j - 1] in r;
      if i > 0 {
        assert t[i] == r[i - 1];
      }
    }
  }

  /** `sorted(set(ep.season for ep in episodes))`. */
  function SortedSeasons(vs: seq<Video>): (r: seq<int>)
    ensures StrictlyIncreasing(r)
    ensures forall y :: y in r <==> exists v :: v in vs && v.season == y
  {
    if vs == [] then []
    else
      assert vs == [vs[0]] + vs[1..];
      InsertSeason(vs[0].season, SortedSeasons(vs[1..]))
  }

  /** The enabled episodes of one series, in table order. */
  function SeriesEpisodes(videos: seq<Video>, series: string): (r: seq<Video>)
    ensures forall v :: v in r <==> v in videos && v.series == series && !v.disabled
  {
    if videos == [] then []
    else
      assert videos == [videos[0]] + videos[1..];
      var rest := SeriesEpisodes(videos[1..], series);
      if videos[0].series == series && !videos[0].disabled then [videos[0]] + rest else rest
  }

  /** `get_series_stats`: None (the empty dict) when the series has no
      enabled episode; otherwise the counts, the sorted distinct seasons, the
      total duration and the floor of the mean duration. */
  function GetSeriesStats(videos: seq<Video>, series: string): (r: Option<SeriesStats>)
    ensures r.None? <==> forall v :: v in videos ==> v.series != series || v.disabled
    ensures r.Some? ==>
      var eps := SeriesEpisodes(videos, series);
      r.value.series == series &&
      r.value.episodeCount == |eps| > 0 &&
      StrictlyIncreasing(r.value.seasons) &&
      (forall y :: y in r.value.seasons <==> exists v :: v in eps && v.season == y) &&
      r.value.seasonCount == |r.value.seasons| &&
      r.value.totalDurationSeconds == SumDurations(eps) &&
      r.value.avgDurationSeconds * |eps| <= r.value.totalDurationSeconds <
        (r.value.avgDurationSeconds + 1) * |eps|
  {
    var eps := SeriesEpisodes(videos, series);
    if eps == [] then
      assert forall v :: v in videos ==> v.series != series || v.disabled;
      None
    else
      assert eps[0] in eps;
      var seasons := SortedSeasons(eps);
      var total := SumDurations(eps);
      FloorDivBounds(total, |eps|);
      Some(SeriesStats(series, |eps|, |seasons|, seasons, total / |eps|, total))
  }

  lemma FloorDivBounds(total: int, n: int)
    requires n > 0
    ensures (total / n) * n <= total < (total / n + 1) * n
  {
    var q := total / n;
    assert total == q * n + total % n;
    assert (q + 1) * n == q * n + n;
  }

  function MinDuration(vs: seq<Video>): int
    requires vs != []
  {
    if |vs| == 1 then vs[0].durationSeconds else Min(vs[0].durationSeconds, MinDuration(vs[1..]))
  }

  function MaxDuration(vs: seq<Video>): int
    requires vs != []
  {
    if |vs| == 1 then vs[0].durationSeconds else Max(vs[0].durationSeconds, MaxDuration(vs[1..]))
  }

  lemma {:induction false} SumDurationsBounds(vs: seq<Video>)
    requires vs != []
    ensures |vs| * MinDuration(vs) <= SumDurations(vs) <= |vs| * MaxDuration(vs)
  {
    if |vs| > 1 {
      SumDurationsBounds(vs[1..]);
      var m := |vs| - 1;
      var d, lo, lo', hi, hi' := vs[0].durationSeconds, MinDuration(vs), MinDuration(vs[1..]),
        MaxDuration(vs), MaxDuration(vs[1..]);
      assert SumDurations(vs) == d + SumDurations(vs[1..]);
      MulStep(m, lo, lo');
      MulStep(m, hi', hi);
    }
  }

  /** `(m + 1) * a == a + m * a` and `m * a <= m * b` for `a <= b`. */
  lemma MulStep(m: nat, a: int, b: int)
    requires a <= b
    ensures (m + 1) * a == a + m * a && m * a <= m * b
  {
    assert m * b - m * a == m * (b - a);
  }

  /** The average duration lies between the shortest and the longest episode. */
  lemma SeriesStatsAverageBounds(videos: seq<Video>, series: string)
    requires GetSeriesStats(videos, series).Some?
    ensures var eps := SeriesEpisodes(videos, series);
      eps != [] &&
      MinDuration(eps) <= GetSeriesStats(videos, series).value.avgDurationSeconds <= MaxDuration(eps)
  {
    var eps := SeriesEpisodes(videos, series);
    SumDurationsBounds(eps);
    FloorDivBetween(SumDurations(eps), |eps|, MinDuration(eps), MaxDuration(eps));
  }

  lemma FloorDivBetween(total: int, n: int, lo: int, hi: int)
    requires n > 0 && n * lo <= total <= n * hi
    ensures lo <= total / n <= hi
  {
    var q := total / n;
    FloorDivBounds(total, n);
    MulCancel(n, lo, q + 1);
    MulCancel(n, q, hi + 1);
  }

  /** A positive factor can be cancelled from a strict inequality. */
  lemma MulCancel(n: int, a: int, b: int)
    requires n > 0 && (n * a < n * b || a * n < b * n || n * a < b * n || a * n < n * b)
    ensures a < b
  {
    assert n * b - n * a == n * (b - a);
  }

  // ---------------------------------------------------------------------------
  // disable_video / enable_video
  // ---------------------------------------------------------------------------

  /** The table with the `disabled` flag of video `id` set to `flag`. */
  function WithDisabled(videos: seq<Video>, id: int, flag: bool): (r: seq<Video>)
    ensures |r| == |videos|
    ensures forall k :: 0 <= k < |videos| ==>
      r[k] == if videos[k].id == id then videos[k].(disabled := flag) else videos[k]
  {
    if videos == [] then []
    else
      var v := if videos[0].id == id then videos[0].(disabled := flag) else videos[0];
      [v] + WithDisabled(videos[1..], id, flag)
  }

  /** Switching a flag changes no path and no id, so the table stays valid. */
  lemma WithDisabledKeepsKeys(videos: seq<Video>, id: int, flag: bool)
    ensures forall k :: 0 <= k < |videos| ==>
      WithDisabled(videos, id, flag)[k].id == videos[k].id &&
      WithDisabled(videos, id, flag)[k].path == videos[k].path
  {
  }

  method SetDisabled(db: Database, id: int, flag: bool) returns (found: bool)
    requires db.Valid()
    modifies db
    ensures db.Valid()
    ensures found <==> exists v :: v in old(db.videos) && v.id == id
    ensures db.videos == WithDisabled(old(db.videos), id, flag)
    ensures db.sessions == old(db.sessions) && db.plays == old(db.plays) && db.feedback == old(db.feedback)
    ensures db.nextVideoId == old(db.nextVideoId) && db.nextSessionId == old(db.nextSessionId)
    ensures db.nextPlayId == old(db.nextPlayId) && db.nextFeedbackId == old(db.nextFeedbackId)
  {
    found := GetVideoById(db.videos, id).Some?;
    var updated := WithDisabled(db.videos, id, flag);
    WithDisabledKeepsKeys(db.videos, id, flag);
    db.videos := updated;
  }

  /** `disable_video`: sets the flag of that video only; False when the id is unknown. */
  method DisableVideo(db: Database, id: int) returns (found: bool)
    requires db.Valid()
    modifies db
    ensures db.Valid()
    ensures found <==> exists v :: v in old(db.videos) && v.id == id
    ensures db.videos == WithDisabled(old(db.videos), id, true)
    ensures db.sessions == old(db.sessions) && db.plays == old(db.plays) && db.feedback == old(db.feedback)
    ensures db.nextVideoId == old(db.nextVideoId) && db.nextSessionId == old(db.nextSessionId)
    ensures db.nextPlayId == old(db.nextPlayId) && db.nextFeedbackId == old(db.nextFeedbackId)
  {
    found := SetDisabled(db, id, true);
  }

  /** `enable_video`: clears the flag of that video only; False when the id is unknown. */
  method EnableVideo(db: Database, id: int) returns (found: bool)
    requires db.Valid()
    modifies db
    ensures db.Valid()
    ensures found <==> exists v :: v in old(db.videos) && v.id == id
    ensures db.videos == WithDisabled(old(db.videos), id, false)
    ensures db.sessions == old(db.sessions) && db.plays == old(db.plays) && db.feedback == old(db.feedback)
    ensures db.nextVideoId == old(db.nextVideoId) && db.nextSessionId == old(db.nextSessionId)
    ensures db.nextPlayId == old(db.nextPlayId) && db.nextFeedbackId == old(db.nextFeedbackId)
  {
    found := SetDisabled(db, id, false);
  }

  /** After disabling, the video is gone from every enabled-only query;
      enabling it again restores the table when it was enabled before. */
  lemma DisableEnableRoundTrip(videos: seq<Video>, id: int)
    requires forall v :: v in videos && v.id == id ==> !v.disabled
    ensures forall v :: v in Enabled(WithDisabled(videos, id, true)) ==> v.id != id
    ensures WithDisabled(WithDisabled(videos, id, true), id, false) == videos
  {
    var d := WithDisabled(videos, id, true);
    forall v | v in Enabled(d) ensures v.id != id {
      var k :| 0 <= k < |d| && d[k] == v;
    }
    var e := WithDisabled(d, id, false);
    forall k | 0 <= k < |videos| ensures e[k] == videos[k] {
      assert videos[k] in videos;
    }
  }
}
