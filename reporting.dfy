/**
 * Feedback analytics: the recent-feedback summary, the episodes rated
 * "never again", the most liked episodes, the per-series summary and the
 * CSV/JSON exports.  The database queries are modelled over the in-memory
 * tables: the inner join feedback -> play -> video is `JoinRows`, a
 * `GROUP BY` is a count over the joined rows, `ORDER BY` is `Sort` and
 * `LIMIT` is `Limit`.  The clock is the parameter `now`.
 */
module Reporting {
  import opened Common
  import opened Models
  import opened Sorting

  // ---------------------------------------------------------------------------
  // The join feedback -> play_history -> video
  // ---------------------------------------------------------------------------

  /** One row of the join. */
  datatype Row = Row(feedback: Feedback, play: PlayHistory, video: Video)

  /** The join condition: the row's feedback is of the row's play, which is a
      play of the row's video, all three taken from the tables. */
  predicate Joins(r: Row, feedback: seq<Feedback>, plays: seq<PlayHistory>, videos: seq<Video>) {
    r.feedback in feedback && r.play in plays && r.video in videos &&
    r.play.id == r.feedback.playHistoryId && r.video.id == r.play.videoId
  }

  function VideoRows(f: Feedback, p: PlayHistory, videos: seq<Video>): seq<Row> {
    if videos == [] then []
    else (if videos[0].id == p.videoId then [Row(f, p, videos[0])] else []) + VideoRows(f, p, videos[1..])
  }

  function PlayRows(f: Feedback, plays: seq<PlayHistory>, videos: seq<Video>): seq<Row> {
    if plays == [] then []
    else (if plays[0].id == f.playHistoryId then VideoRows(f, plays[0], videos) else []) + PlayRows(f, plays[1..], videos)
  }

  /** The joined rows, feedback by feedback in table order. */
  function JoinRows(feedback: seq<Feedback>, plays: seq<PlayHistory>, videos: seq<Video>): seq<Row> {
    if feedback == [] then []
    else PlayRows(feedback[0], plays, videos) + JoinRows(feedback[1..], plays, videos)
  }

  lemma {:induction false} VideoRowsMembers(f: Feedback, p: PlayHistory, videos: seq<Video>)
    ensures forall r :: r in VideoRows(f, p, videos) <==> r.feedback == f && r.play == p && r.video in videos && r.video.id == p.videoId
  {
    if videos != [] {
      assert videos == [videos[0]] + videos[1..];
      VideoRowsMembers(f, p, videos[1..]);
    }
  }

  lemma {:induction false} PlayRowsMembers(f: Feedback, plays: seq<PlayHistory>, videos: seq<Video>)
    ensures forall r :: r in PlayRows(f, plays, videos) <==>
      r.feedback == f && r.play in plays && r.video in videos && r.play.id == f.playHistoryId && r.video.id == r.play.videoId
  {
    if plays != [] {
      assert plays == [plays[0]] + plays[1..];
      VideoRowsMembers(f, plays[0], videos);
      PlayRowsMembers(f, plays[1..], videos);
    }
  }

  /** The join holds exactly the rows meeting the join condition. */
  lemma {:induction false} JoinRowsMembers(feedback: seq<Feedback>, plays: seq<PlayHistory>, videos: seq<Video>)
    ensures forall r :: r in JoinRows(feedback, plays, videos) <==> Joins(r, feedback, plays, videos)
  {
    if feedback != [] {
      assert feedback == [feedback[0]] + feedback[1..];
      PlayRowsMembers(feedback[0], plays, videos);
      JoinRowsMembers(feedback[1..], plays, videos);
    }
  }

  // ---------------------------------------------------------------------------
  // get_recent_summary
  // ---------------------------------------------------------------------------

  /** `datetime.utcnow() - timedelta(days=days)`. */
  function Cutoff(now: int, days: int): int { now - days * SecondsPerDay }

  /** The feedback submitted at or after `cutoff`, in table order. */
  function Recent(feedback: seq<Feedback>, cutoff: int): (r: seq<Feedback>)
    ensures forall f :: f in r <==> f in feedback && f.submittedAt >= cutoff
  {
    if feedback == [] then []
    else
      assert feedback == [feedback[0]] + feedback[1..];
      (if feedback[0].submittedAt >= cutoff then [feedback[0]] else []) + Recent(feedback[1..], cutoff)
  }

  /** How many of the rows carry rating `r`. */
  function CountRating(fs: seq<Feedback>, r: Rating): nat {
    if fs == [] then 0 else (if fs[0].rating == r then 1 else 0) + CountRating(fs[1..], r)
  }

  /** Every row is liked, okay or never. */
  lemma {:induction false} CountRatingsSum(fs: seq<Feedback>)
    ensures CountRating(fs, Liked) + CountRating(fs, Okay) + CountRating(fs, Never) == |fs|
  {
    if fs != [] {
      CountRatingsSum(fs[1..]);
    }
  }

  /** `count / total * 100`, and 0 when there is nothing to count. */
  function Percentage(count: int, total: int): real {
    if total > 0 then count as real / total as real * 100.0 else 0.0
  }

  /** The three percentages of a split of a positive total add up to 100. */
  lemma PercentagesSum(a: nat, b: nat, c: nat)
    requires a + b + c > 0
    ensures Percentage(a, a + b + c) + Percentage(b, a + b + c) + Percentage(c, a + b + c) == 100.0
  {
    var t := (a + b + c) as real;
    assert a as real / t + b as real / t + c as real / t == (a as real + b as real + c as real) / t;
  }

  /** A percentage of a part of the total lies between 0 and 100. */
  lemma PercentageBounds(count: nat, total: int)
    requires count <= total
    ensures 0.0 <= Percentage(count, total) <= 100.0
  {
    if total > 0 {
      assert count as real / total as real <= 1.0;
    }
  }

  datatype Summary = Summary(
    periodDays: int,
    total: nat,
    liked: nat,
    okay: nat,
    never: nat,
    likedPercentage: real,
    okayPercentage: real,
    neverPercentage: real)

  /** `get_recent_summary`: counts and percentages of the feedback submitted in
      the last `days` days.  The three counts split the total; the
      percentages are 0 when there is no feedback and otherwise add up to 100. */
  function GetRecentSummary(feedback: seq<Feedback>, days: int, now: int): (s: Summary)
    ensures s.periodDays == days && s.total == |Recent(feedback, Cutoff(now, days))|
    ensures s.liked + s.okay + s.never == s.total
    ensures var fs := Recent(feedback, Cutoff(now, days));
      s.liked == CountRating(fs, Liked) && s.okay == CountRating(fs, Okay) && s.never == CountRating(fs, Never)
    ensures s.total > 0 ==>
      s.likedPercentage == s.liked as real / s.total as real * 100.0 &&
      s.okayPercentage == s.okay as real / s.total as real * 100.0 &&
      s.neverPercentage == s.never as real / s.total as real * 100.0
    ensures s.total == 0 ==> s.likedPercentage == 0.0 && s.okayPercentage == 0.0 && s.neverPercentage == 0.0
    ensures s.total > 0 ==> s.likedPercentage + s.okayPercentage + s.neverPercentage == 100.0
  {
    var fs := Recent(feedback, Cutoff(now, days));
    var total := |fs|;
    var liked := CountRating(fs, Liked);
    var okay := CountRating(fs, Okay);
    var never := CountRating(fs, Never);
    CountRatingsSum(fs);
    if total > 0 then
      PercentagesSum(liked, okay, never);
      Summary(days, total, liked, okay, never, Percentage(liked, total), Percentage(okay, total), Percentage(never, total))
    else
      Summary(days, total, liked, okay, never, Percentage(liked, total), Percentage(okay, total), Percentage(never, total))
  }

  // ---------------------------------------------------------------------------
  // get_never_again_episodes / get_top_liked_episodes
  // ---------------------------------------------------------------------------

  /** `COUNT(feedback.id)` of the joined rows of video `vid` rated `r`. */
  function CountVideoRating(rows: seq<Row>, vid: int, r: Rating): nat {
    if rows == [] then 0
    else (if rows[0].video.id == vid && rows[0].feedback.rating == r then 1 else 0) + CountVideoRating(rows[1..], vid, r)
  }

  lemma {:induction false} CountVideoRatingPositive(rows: seq<Row>, vid: int, r: Rating)
    ensures CountVideoRating(rows, vid, r) > 0 <==> exists row :: row in rows && row.video.id == vid && row.feedback.rating == r
  {
    if rows != [] {
      assert rows == [rows[0]] + rows[1..];
      CountVideoRatingPositive(rows[1..], vid, r);
    }
  }

  /** One result row of a `GROUP BY video.id` query: the video's fields and the count. */
  datatype EpisodeCount = EpisodeCount(
    videoId: int,
    series: string,
    season: int,
    episodeCode: string,
    title: Option<string>,
    count: nat)

  function EpisodeOf(v: Video, count: nat): EpisodeCount {
    EpisodeCount(v.id, v.series, v.season, v.episodeCode, v.title, count)
  }

  /** `GROUP BY video.id` over the joined rows rated `r`: one entry per video
      that has such a row, in video table order. */
  function EpisodeCounts(videos: seq<Video>, rows: seq<Row>, r: Rating): (es: seq<EpisodeCount>)
    ensures |es| <= |videos|
  {
    if videos == [] then []
    else
      var n := CountVideoRating(rows, videos[0].id, r);
      (if n > 0 then [EpisodeOf(videos[0], n)] else []) + EpisodeCounts(videos[1..], rows, r)
  }

  /** The groups are exactly the videos with a positive count, each with its count. */
  lemma {:induction false} EpisodeCountsMembers(videos: seq<Video>, rows: seq<Row>, r: Rating)
    ensures forall e :: e in EpisodeCounts(videos, rows, r) <==>
      exists v :: v in videos && CountVideoRating(rows, v.id, r) > 0 && e == EpisodeOf(v, CountVideoRating(rows, v.id, r))
  {
    if videos != [] {
      assert videos == [videos[0]] + videos[1..];
      EpisodeCountsMembers(videos[1..], rows, r);
    }
  }

  predicate OnePerVideo(es: seq<EpisodeCount>) {
    forall i, j :: 0 <= i < j < |es| ==> es[i].videoId != es[j].videoId
  }

  /** With distinct video ids (the primary key) there is one entry per video. */
  lemma {:induction false} EpisodeCountsDistinct(videos: seq<Video>, rows: seq<Row>, r: Rating)
    requires DistinctIds(videos)
    ensures OnePerVideo(EpisodeCounts(videos, rows, r))
  {
    if videos != [] {
      var tail := videos[1..];
      assert DistinctIds(tail) by {
        forall i, j | 0 <= i < j < |tail| ensures tail[i].id != tail[j].id {
          assert tail[i] == videos[i + 1] && tail[j] == videos[j + 1];
        }
      }
      EpisodeCountsDistinct(tail, rows, r);
      EpisodeCountsMembers(tail, rows, r);
      var rest := EpisodeCounts(tail, rows, r);
      forall e | e in rest ensures e.videoId != videos[0].id {
        var v :| v in tail && CountVideoRating(rows, v.id, r) > 0 && e == EpisodeOf(v, CountVideoRating(rows, v.id, r));
        var k :| 0 <= k < |tail| && tail[k] == v;
        assert videos[k + 1] == v;
      }
      var es := EpisodeCounts(videos, rows, r);
      var n := CountVideoRating(rows, videos[0].id, r);
      if n > 0 {
        assert es == [EpisodeOf(videos[0], n)] + rest;
        forall i, j | 0 <= i < j < |es| ensures es[i].videoId != es[j].videoId {
          assert es[j] == rest[j - 1];
          if i > 0 {
            assert es[i] == rest[i - 1];
          }
        }
      } else {
        assert es == rest;
      }
    }
  }

  /** `get_never_again_episodes`: the videos rated NEVER at least once, with
      the number of such ratings. */
  function GetNeverAgainEpisodes(feedback: seq<Feedback>, plays: seq<PlayHistory>, videos: seq<Video>): (r: seq<EpisodeCount>)
    ensures |r| <= |videos|
  {
    EpisodeCounts(videos, JoinRows(feedback, plays, videos), Never)
  }

  /** Every entry has a positive NEVER count, and a video of the library is
      listed exactly when one of its plays was rated NEVER (the same condition
      that gives a video zero weight in the scheduler). */
  lemma NeverAgainProperties(feedback: seq<Feedback>, plays: seq<PlayHistory>, videos: seq<Video>, v: Video)
    requires v in videos
    ensures forall e :: e in GetNeverAgainEpisodes(feedback, plays, videos) ==>
      e.count >= 1 && e.count == CountVideoRating(JoinRows(feedback, plays, videos), e.videoId, Never)
    ensures (exists e :: e in GetNeverAgainEpisodes(feedback, plays, videos) && e.videoId == v.id) <==>
      HasNeverFeedback(plays, feedback, v.id)
  {
    var rows := JoinRows(feedback, plays, videos);
    EpisodeCountsMembers(videos, rows, Never);
    JoinRowsMembers(feedback, plays, videos);
    CountVideoRatingPositive(rows, v.id, Never);
    if HasNeverFeedback(plays, feedback, v.id) {
      var f :| f in feedback && f.rating == Never && PlayOfVideo(plays, f.playHistoryId, v.id);
      var p :| p in plays && p.id == f.playHistoryId && p.videoId == v.id;
      assert Row(f, p, v) in rows;
      assert EpisodeOf(v, CountVideoRating(rows, v.id, Never)) in GetNeverAgainEpisodes(feedback, plays, videos);
    }
    if exists e :: e in GetNeverAgainEpisodes(feedback, plays, videos) && e.videoId == v.id {
      var e :| e in GetNeverAgainEpisodes(feedback, plays, videos) && e.videoId == v.id;
      var w :| w in videos && CountVideoRating(rows, w.id, Never) > 0 && e == EpisodeOf(w, CountVideoRating(rows, w.id, Never));
      CountVideoRatingPositive(rows, w.id, Never);
      var row :| row in rows && row.video.id == w.id && row.feedback.rating == Never;
      assert PlayOfVideo(plays, row.feedback.playHistoryId, v.id);
    }
  }

  /** `ORDER BY count DESC`. */
  predicate MoreFirst(a: EpisodeCount, b: EpisodeCount) { a.count >= b.count }

  lemma MoreFirstIsTotalPreorder()
    ensures TotalPreorder(MoreFirst)
  {
  }

  /** `get_top_liked_episodes`: the liked videos, most liked first, at most
      `limit` of them. */
  function GetTopLikedEpisodes(feedback: seq<Feedback>, plays: seq<PlayHistory>, videos: seq<Video>, limit: int): (r: seq<EpisodeCount>)
    ensures |r| <= |videos|
    ensures limit >= 0 ==> |r| <= limit
  {
    Limit(Sort(EpisodeCounts(videos, JoinRows(feedback, plays, videos), Liked), MoreFirst), limit)
  }

  /** The list is at most `limit` long, ordered by like count descending, holds
      only liked videos with their like count, and no liked video left out has
      more likes than one listed. */
  lemma TopLikedProperties(feedback: seq<Feedback>, plays: seq<PlayHistory>, videos: seq<Video>, limit: int)
    ensures var rows := JoinRows(feedback, plays, videos);
      var all := EpisodeCounts(videos, rows, Liked);
      var top := GetTopLikedEpisodes(feedback, plays, videos, limit);
      (limit >= 0 ==> |top| <= limit) &&
      |top| == (if 0 <= limit <= |all| then limit else |all|) &&
      SortedBy(top, MoreFirst) &&
      (forall e :: e in top ==> e in all && e.count >= 1 && e.count == CountVideoRating(rows, e.videoId, Liked)) &&
      (forall e, d :: e in all && e !in top && d in top ==> d.count >= e.count)
  {
    var rows := JoinRows(feedback, plays, videos);
    var all := EpisodeCounts(videos, rows, Liked);
    var sorted := Sort(all, MoreFirst);
    MoreFirstIsTotalPreorder();
    SortSorted(all, MoreFirst);
    assert |sorted| == |multiset(sorted)| == |multiset(all)| == |all|;
    EpisodeCountsMembers(videos, rows, Liked);
    var top := Limit(sorted, limit);
    assert top == sorted[..|top|];
    forall e | e in top ensures e in all {
      SortMembers(all, MoreFirst, e);
    }
    forall e, d | e in all && e !in top && d in top ensures d.count >= e.count {
      SortMembers(all, MoreFirst, e);
      SortedPrefixFirst(sorted, |top|, MoreFirst, d, e);
    }
  }

  // ---------------------------------------------------------------------------
  // get_series_feedback_summary
  // ---------------------------------------------------------------------------

  /** `COUNT(feedback.id)` of the joined rows of series `series` rated `r`. */
  function CountSeriesRating(rows: seq<Row>, series: string, r: Rating): nat {
    if rows == [] then 0
    else (if rows[0].video.series == series && rows[0].feedback.rating == r then 1 else 0) + CountSeriesRating(rows[1..], series, r)
  }

  lemma {:induction false} CountSeriesRatingPositive(rows: seq<Row>, series: string, r: Rating)
    ensures CountSeriesRating(rows, series, r) > 0 <==>
      exists row :: row in rows && row.video.series == series && row.feedback.rating == r
  {
    if rows != [] {
      assert rows == [rows[0]] + rows[1..];
      CountSeriesRatingPositive(rows[1..], series, r);
    }
  }

  /** The number of joined rows of series `series`. */
  function CountSeries(rows: seq<Row>, series: string): nat {
    if rows == [] then 0
    else (if rows[0].video.series == series then 1 else 0) + CountSeries(rows[1..], series)
  }

  lemma {:induction false} CountSeriesSplits(rows: seq<Row>, series: string)
    ensures CountSeriesRating(rows, series, Liked) + CountSeriesRating(rows, series, Okay) +
      CountSeriesRating(rows, series, Never) == CountSeries(rows, series)
  {
    if rows != [] {
      CountSeriesSplits(rows[1..], series);
    }
  }

  lemma {:induction false} CountSeriesPositive(rows: seq<Row>, series: string)
    ensures CountSeries(rows, series) > 0 <==> exists row :: row in rows && row.video.series == series
  {
    if rows != [] {
      assert rows == [rows[0]] + rows[1..];
      CountSeriesPositive(rows[1..], series);
    }
  }

  /** The distinct (series, rating) pairs of the joined rows. */
  function SeriesRatingPairs(rows: seq<Row>): (ps: seq<(string, Rating)>)
    ensures forall p :: p in ps <==> exists row :: row in rows && row.video.series == p.0 && row.feedback.rating == p.1
  {
    if rows == [] then []
    else
      assert rows == [rows[0]] + rows[1..];
      var rest := SeriesRatingPairs(rows[1..]);
      var p := (rows[0].video.series, rows[0].feedback.rating);
      if p in rest then rest else [p] + rest
  }

  /** One result row of `GROUP BY video.series, feedback.rating`. */
  datatype Group = Group(series: string, rating: Rating, count: nat)

  /** The result of the grouped query: one group per pair present, with its count. */
  function SeriesGroups(rows: seq<Row>): (gs: seq<Group>)
    ensures forall k :: 0 <= k < |gs| ==> gs[k].count == CountSeriesRating(rows, gs[k].series, gs[k].rating)
    ensures forall series, r :: (exists k :: 0 <= k < |gs| && gs[k].series == series && gs[k].rating == r) <==>
      (series, r) in SeriesRatingPairs(rows)
  {
    var ps := SeriesRatingPairs(rows);
    var gs := seq(|ps|, k requires 0 <= k < |ps| => Group(ps[k].0, ps[k].1, CountSeriesRating(rows, ps[k].0, ps[k].1)));
    assert forall k :: 0 <= k < |ps| ==> gs[k].series == ps[k].0 && gs[k].rating == ps[k].1;
    gs
  }

  /** The `{"liked": .., "okay": .., "never": ..}` dictionary of one series. */
  datatype Counts = Counts(liked: nat, okay: nat, never: nat)

  function CountOf(c: Counts, r: Rating): nat {
    match r
    case Liked => c.liked
    case Okay => c.okay
    case Never => c.never
  }

  /** `data[rating.value] = count`. */
  function SetCount(c: Counts, r: Rating, n: nat): (d: Counts)
    ensures CountOf(d, r) == n
    ensures forall q :: q != r ==> CountOf(d, q) == CountOf(c, q)
  {
    match r
    case Liked => c.(liked := n)
    case Okay => c.(okay := n)
    case Never => c.(never := n)
  }

  /** The dictionary the first loop builds from the groups, taken in order. */
  function Tally(groups: seq<Group>): map<string, Counts> {
    if groups == [] then map[]
    else
      var m := Tally(groups[..|groups| - 1]);
      var g := groups[|groups| - 1];
      m[g.series := SetCount(if g.series in m then m[g.series] else Counts(0, 0, 0), g.rating, g.count)]
  }

  /** The count of the last group for (series, r), 0 when there is none. */
  function LastCount(groups: seq<Group>, series: string, r: Rating): nat {
    if groups == [] then 0
    else if groups[|groups| - 1].series == series && groups[|groups| - 1].rating == r then groups[|groups| - 1].count
    else LastCount(groups[..|groups| - 1], series, r)
  }

  lemma {:induction false} TallyLookup(groups: seq<Group>, series: string, r: Rating)
    ensures series in Tally(groups) <==> exists k :: 0 <= k < |groups| && groups[k].series == series
    ensures series in Tally(groups) ==> CountOf(Tally(groups)[series], r) == LastCount(groups, series, r)
    ensures series !in Tally(groups) ==> LastCount(groups, series, r) == 0
  {
    if groups != [] {
      var init := groups[..|groups| - 1];
      TallyLookup(init, series, r);
      assert forall k :: 0 <= k < |init| ==> init[k] == groups[k];
      if exists k :: 0 <= k < |groups| && groups[k].series == series {
        var k :| 0 <= k < |groups| && groups[k].series == series;
        if k < |init| {
          assert init[k].series == series;
        }
      }
    }
  }

  /** When every group carries the count of its pair, the last group of a pair
      gives that count, and a pair without a group gives 0. */
  lemma {:induction false} LastCountIs(groups: seq<Group>, rows: seq<Row>, series: string, r: Rating)
    requires forall k :: 0 <= k < |groups| ==> groups[k].count == CountSeriesRating(rows, groups[k].series, groups[k].rating)
    ensures (exists k :: 0 <= k < |groups| && groups[k].series == series && groups[k].rating == r) ==>
      LastCount(groups, series, r) == CountSeriesRating(rows, series, r)
    ensures (forall k :: 0 <= k < |groups| ==> groups[k].series != series || groups[k].rating != r) ==>
      LastCount(groups, series, r) == 0
  {
    if groups != [] {
      var init := groups[..|groups| - 1];
      assert forall k :: 0 <= k < |init| ==> init[k] == groups[k];
      LastCountIs(init, rows, series, r);
    }
  }

  /** The per-series figures computed straight from the joined rows. */
  datatype SeriesStats = SeriesStats(liked: nat, okay: nat, never: nat, total: nat, likedPercentage: real)

  /** The second loop's figures for one series' counts. */
  function StatsOf(c: Counts): SeriesStats {
    var total := c.liked + c.okay + c.never;
    SeriesStats(c.liked, c.okay, c.never, total, Percentage(c.liked, total))
  }

  /** The counts of one series, counted straight from the joined rows. */
  function SeriesCounts(rows: seq<Row>, series: string): Counts {
    Counts(CountSeriesRating(rows, series, Liked), CountSeriesRating(rows, series, Okay), CountSeriesRating(rows, series, Never))
  }

  /** A series is tallied exactly when some joined row belongs to it. */
  lemma TallyKeys(rows: seq<Row>, series: string)
    ensures series in Tally(SeriesGroups(rows)) <==> exists row :: row in rows && row.video.series == series
  {
    var gs := SeriesGroups(rows);
    TallyLookup(gs, series, Liked);
    if exists row :: row in rows && row.video.series == series {
      var row :| row in rows && row.video.series == series;
      assert (series, row.feedback.rating) in SeriesRatingPairs(rows);
    }
    if series in Tally(gs) {
      var k :| 0 <= k < |gs| && gs[k].series == series;
      assert (series, gs[k].rating) in SeriesRatingPairs(rows);
    }
  }

  /** A tallied count is the number of joined rows of that series and rating. */
  lemma TallyCount(rows: seq<Row>, series: string, r: Rating)
    requires series in Tally(SeriesGroups(rows))
    ensures CountOf(Tally(SeriesGroups(rows))[series], r) == CountSeriesRating(rows, series, r)
  {
    var gs := SeriesGroups(rows);
    TallyLookup(gs, series, r);
    LastCountIs(gs, rows, series, r);
    CountSeriesRatingPositive(rows, series, r);
    if CountSeriesRating(rows, series, r) > 0 {
      assert (series, r) in SeriesRatingPairs(rows);
    }
  }

  /** Tallying the grouped query yields, for each series present, its counts. */
  lemma TallyOfGroups(rows: seq<Row>)
    ensures forall series :: series in Tally(SeriesGroups(rows)) <==> exists row :: row in rows && row.video.series == series
    ensures forall series :: series in Tally(SeriesGroups(rows)) ==> Tally(SeriesGroups(rows))[series] == SeriesCounts(rows, series)
  {
    forall series ensures series in Tally(SeriesGroups(rows)) <==> exists row :: row in rows && row.video.series == series {
      TallyKeys(rows, series);
    }
    forall series | series in Tally(SeriesGroups(rows)) ensures Tally(SeriesGroups(rows))[series] == SeriesCounts(rows, series) {
      TallyCount(rows, series, Liked);
      TallyCount(rows, series, Okay);
      TallyCount(rows, series, Never);
    }
  }

  /** The first loop: `series_data[series][rating.value] = count` for each
      group in turn, starting a series at all zeros. */
  method TallyGroups(groups: seq<Group>) returns (counts: map<string, Counts>)
    ensures counts == Tally(groups)
  {
    counts := map[];
    var i := 0;
    while i < |groups|
      invariant 0 <= i <= |groups|
      invariant counts == Tally(groups[..i])
    {
      var g := groups[i];
      var c := if g.series in counts then counts[g.series] else Counts(0, 0, 0);
      counts := counts[g.series := SetCount(c, g.rating, g.count)];
      assert groups[..i + 1][..i] == groups[..i];
      i := i + 1;
    }
    assert groups[..i] == groups;
  }

  /** The second loop: the total and the liked percentage of every series. */
  method AddTotals(counts: map<string, Counts>) returns (data: map<string, SeriesStats>)
    ensures data.Keys == counts.Keys
    ensures forall series :: series in data ==> data[series] == StatsOf(counts[series])
  {
    data := map[];
    var pending := counts.Keys;
    while pending != {}
      invariant pending <= counts.Keys
      invariant data.Keys == counts.Keys - pending
      invariant forall series :: series in data ==> data[series] == StatsOf(counts[series])
      decreases pending
    {
      var series :| series in pending;
      data := data[series := StatsOf(counts[series])];
      pending := pending - {series};
    }
  }

  /** `get_series_feedback_summary`: for every series with feedback, its
      counts per rating, their total and the liked percentage, all as counted
      straight from the joined rows. */
  method GetSeriesFeedbackSummary(feedback: seq<Feedback>, plays: seq<PlayHistory>, videos: seq<Video>)
    returns (data: map<string, SeriesStats>)
    ensures forall series :: series in data <==>
      exists row :: row in JoinRows(feedback, plays, videos) && row.video.series == series
    ensures forall series :: series in data ==>
      data[series] == StatsOf(SeriesCounts(JoinRows(feedback, plays, videos), series))
  {
    var rows := JoinRows(feedback, plays, videos);
    var counts := TallyGroups(SeriesGroups(rows));
    TallyOfGroups(rows);
    data := AddTotals(counts);
  }

  /** Every series listed has feedback: its total is the number of its rated
      plays, the counts split it, and the liked percentage lies in 0..100. */
  lemma SeriesStatsProperties(rows: seq<Row>, series: string)
    requires exists row :: row in rows && row.video.series == series
    ensures var st := StatsOf(SeriesCounts(rows, series));
      st.total == st.liked + st.okay + st.never && st.total == CountSeries(rows, series) && st.total >= 1 &&
      0.0 <= st.likedPercentage <= 100.0
  {
    CountSeriesSplits(rows, series);
    CountSeriesPositive(rows, series);
    var c := SeriesCounts(rows, series);
    PercentageBounds(c.liked, c.liked + c.okay + c.never);
  }

  // ---------------------------------------------------------------------------
  // export_to_csv / export_to_json
  // ---------------------------------------------------------------------------

  /** `if days:` -- both None and 0 mean "all feedback". */
  predicate FiltersByDays(days: Option<int>) { days.Some? && days.value != 0 }

  /** The rows of the export query, in the join's order. */
  function ExportRows(feedback: seq<Feedback>, plays: seq<PlayHistory>, videos: seq<Video>, days: Option<int>, now: int): seq<Row> {
    JoinRows(if FiltersByDays(days) then Recent(feedback, Cutoff(now, days.value)) else feedback, plays, videos)
  }

  /** The export holds the joined rows, restricted to the last `days` days
      when `days` is set and non-zero. */
  lemma ExportRowsMembers(feedback: seq<Feedback>, plays: seq<PlayHistory>, videos: seq<Video>, days: Option<int>, now: int)
    ensures forall r :: r in ExportRows(feedback, plays, videos, days, now) <==>
      Joins(r, feedback, plays, videos) && (FiltersByDays(days) ==> r.feedback.submittedAt >= Cutoff(now, days.value))
  {
    var fs := if FiltersByDays(days) then Recent(feedback, Cutoff(now, days.value)) else feedback;
    JoinRowsMembers(fs, plays, videos);
  }

  /** Feedback `f` names an existing play of an existing video. */
  predicate HasJoin(f: Feedback, plays: seq<PlayHistory>, videos: seq<Video>) {
    exists p, v :: p in plays && v in videos && p.id == f.playHistoryId && v.id == p.videoId
  }

  /** The feedback rows that take part in the join, in table order. */
  function Joinable(feedback: seq<Feedback>, plays: seq<PlayHistory>, videos: seq<Video>): seq<Feedback> {
    if feedback == [] then []
    else (if HasJoin(feedback[0], plays, videos) then [feedback[0]] else []) + Joinable(feedback[1..], plays, videos)
  }

  /** The feedback column of joined rows. */
  function FeedbackColumn(rows: seq<Row>): seq<Feedback> {
    if rows == [] then [] else [rows[0].feedback] + FeedbackColumn(rows[1..])
  }

  lemma {:induction false} VideoRowsAtMostOne(f: Feedback, p: PlayHistory, videos: seq<Video>)
    requires DistinctIds(videos)
    ensures |VideoRows(f, p, videos)| == if exists v :: v in videos && v.id == p.videoId then 1 else 0
  {
    if videos != [] {
      var tail := videos[1..];
      assert videos == [videos[0]] + tail;
      assert DistinctIds(tail) by {
        forall i, j | 0 <= i < j < |tail| ensures tail[i].id != tail[j].id {
          assert tail[i] == videos[i + 1] && tail[j] == videos[j + 1];
        }
      }
      VideoRowsAtMostOne(f, p, tail);
      if videos[0].id == p.videoId {
        forall v | v in tail ensures v.id != p.videoId {
          var k :| 0 <= k < |tail| && tail[k] == v;
          assert videos[k + 1] == v;
        }
      }
    }
  }

  lemma {:induction false} PlayRowsAtMostOne(f: Feedback, plays: seq<PlayHistory>, videos: seq<Video>)
    requires DistinctPlayIds(plays) && DistinctIds(videos)
    ensures |PlayRows(f, plays, videos)| == if HasJoin(f, plays, videos) then 1 else 0
  {
    if plays != [] {
      var tail := plays[1..];
      assert plays == [plays[0]] + tail;
      assert DistinctPlayIds(tail) by {
        forall i, j | 0 <= i < j < |tail| ensures tail[i].id != tail[j].id {
          assert tail[i] == plays[i + 1] && tail[j] == plays[j + 1];
        }
      }
      PlayRowsAtMostOne(f, tail, videos);
      if plays[0].id == f.playHistoryId {
        VideoRowsAtMostOne(f, plays[0], videos);
        forall p | p in tail ensures p.id != f.playHistoryId {
          var k :| 0 <= k < |tail| && tail[k] == p;
          assert plays[k + 1] == p;
        }
        assert !HasJoin(f, tail, videos);
        if exists v :: v in videos && v.id == plays[0].videoId {
          var v :| v in videos && v.id == plays[0].videoId;
          assert HasJoin(f, plays, videos) by {
            assert plays[0] in plays;
          }
        }
      } else {
        if HasJoin(f, plays, videos) {
          var p, v :| p in plays && v in videos && p.id == f.playHistoryId && v.id == p.videoId;
          assert p in tail;
        }
      }
    }
  }

  /** With the tables' ids distinct, the join has exactly one row per
      feedback whose play and video exist, in feedback order. */
  lemma {:induction false} JoinRowsOnePerFeedback(feedback: seq<Feedback>, plays: seq<PlayHistory>, videos: seq<Video>)
    requires DistinctPlayIds(plays) && DistinctIds(videos)
    ensures FeedbackColumn(JoinRows(feedback, plays, videos)) == Joinable(feedback, plays, videos)
  {
    if feedback != [] {
      var f := feedback[0];
      var head := PlayRows(f, plays, videos);
      var rest := JoinRows(feedback[1..], plays, videos);
      JoinRowsOnePerFeedback(feedback[1..], plays, videos);
      PlayRowsAtMostOne(f, plays, videos);
      if |head| == 1 {
        PlayRowsMembers(f, plays, videos);
        assert head[0] in head;
        assert (head + rest)[1..] == rest;
      } else {
        assert head + rest == rest;
      }
    }
  }

  /** `video.title or ""`. */
  function OrEmpty(title: Option<string>): string {
    if title.Some? then title.value else ""
  }

  /** The CSV header row. */
  function CsvHeader(): seq<string> {
    ["Feedback ID", "Rating", "Submitted At", "Series", "Season", "Episode Code", "Title", "Video ID"]
  }

  /** The CSV fields of one joined row; `isoformat` renders a timestamp. */
  function CsvRecord(r: Row, isoformat: int -> string): seq<string> {
    [IntToString(r.feedback.id), RatingValue(r.feedback.rating), isoformat(r.feedback.submittedAt),
     r.video.series, IntToString(r.video.season), r.video.episodeCode, OrEmpty(r.video.title), IntToString(r.video.id)]
  }

  /** `export_to_csv`: the header, then one record per exported row, in order. */
  method ExportToCsv(feedback: seq<Feedback>, plays: seq<PlayHistory>, videos: seq<Video>, days: Option<int>, now: int,
                     isoformat: int -> string) returns (table: seq<seq<string>>)
    ensures var rows := ExportRows(feedback, plays, videos, days, now);
      |table| == |rows| + 1 && table[0] == CsvHeader() &&
      forall k :: 0 <= k < |rows| ==> table[k + 1] == CsvRecord(rows[k], isoformat)
  {
    var rows := ExportRows(feedback, plays, videos, days, now);
    table := [CsvHeader()];
    var i := 0;
    while i < |rows|
      invariant 0 <= i <= |rows|
      invariant |table| == i + 1 && table[0] == CsvHeader()
      invariant forall k :: 0 <= k < i ==> table[k + 1] == CsvRecord(rows[k], isoformat)
    {
      table := table + [CsvRecord(rows[i], isoformat)];
      i := i + 1;
    }
  }

  /** One object of the JSON export; the title stays `null` when missing. */
  datatype JsonRecord = JsonRecord(
    feedbackId: int,
    rating: string,
    submittedAt: string,
    series: string,
    season: int,
    episodeCode: string,
    title: Option<string>,
    videoId: int)

  function JsonRecordOf(r: Row, isoformat: int -> string): JsonRecord {
    JsonRecord(r.feedback.id, RatingValue(r.feedback.rating), isoformat(r.feedback.submittedAt),
               r.video.series, r.video.season, r.video.episodeCode, r.video.title, r.video.id)
  }

  /** `export_to_json`: one object per exported row, in order. */
  method ExportToJson(feedback: seq<Feedback>, plays: seq<PlayHistory>, videos: seq<Video>, days: Option<int>, now: int,
                      isoformat: int -> string) returns (data: seq<JsonRecord>)
    ensures var rows := ExportRows(feedback, plays, videos, days, now);
      |data| == |rows| && forall k :: 0 <= k < |rows| ==> data[k] == JsonRecordOf(rows[k], isoformat)
  {
    var rows := ExportRows(feedback, plays, videos, days, now);
    data := [];
    var i := 0;
    while i < |rows|
      invariant 0 <= i <= |rows|
      invariant |data| == i
      invariant forall k :: 0 <= k < i ==> data[k] == JsonRecordOf(rows[k], isoformat)
    {
      data := data + [JsonRecordOf(rows[i], isoformat)];
      i := i + 1;
    }
  }

  /** The numeric and rating fields of a CSV record read back as the row's values. */
  lemma CsvReadsBack(r: Row, isoformat: int -> string)
    ensures ParseInt(CsvRecord(r, isoformat)[0]) == Some(r.feedback.id)
    ensures RatingFromValue(CsvRecord(r, isoformat)[1]) == Some(r.feedback.rating)
    ensures ParseInt(CsvRecord(r, isoformat)[4]) == Some(r.video.season)
    ensures ParseInt(CsvRecord(r, isoformat)[7]) == Some(r.video.id)
  {
    var c := CsvRecord(r, isoformat);
    assert c[0] == IntToString(r.feedback.id) && c[1] == RatingValue(r.feedback.rating);
    assert c[4] == IntToString(r.video.season) && c[7] == IntToString(r.video.id);
    ParseIntOfIntToString(r.feedback.id);
    ParseIntOfIntToString(r.video.season);
    ParseIntOfIntToString(r.video.id);
    RatingHasThreeMembers(r.feedback.rating);
  }
}
