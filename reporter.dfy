/**
 * The second feedback report service: a recent summary computed with one
 * count query per rating, the most liked and never-again episodes in a
 * shorter form, and CSV/JSON exports of the last `days` days, newest first.
 * The queries run over the same join as the analytics service, so this
 * module reuses its counting functions and proves the two agree.
 */
module Reporter {
  import opened Common
  import opened Models
  import opened Sorting
  import Reporting

  // ---------------------------------------------------------------------------
  // get_recent_summary
  // ---------------------------------------------------------------------------

  datatype RecentStats = RecentStats(
    totalFeedback: nat,
    liked: nat,
    likedPercentage: real,
    okay: nat,
    okayPercentage: real,
    never: nat,
    neverPercentage: real)

  /** `get_recent_summary`: with no feedback in the last `days` days, every
      figure is 0; otherwise the three counts split the total and each
      percentage is its count over the total, times 100. */
  function GetRecentSummary(feedback: seq<Feedback>, days: int, now: int): (s: RecentStats)
    ensures s.totalFeedback == |Reporting.Recent(feedback, Reporting.Cutoff(now, days))|
    ensures s.totalFeedback == 0 ==>
      s.liked == 0 && s.okay == 0 && s.never == 0 &&
      s.likedPercentage == 0.0 && s.okayPercentage == 0.0 && s.neverPercentage == 0.0
    ensures s.totalFeedback > 0 ==>
      s.liked + s.okay + s.never == s.totalFeedback &&
      s.likedPercentage + s.okayPercentage + s.neverPercentage == 100.0
    ensures var fs := Reporting.Recent(feedback, Reporting.Cutoff(now, days));
      s.liked == Reporting.CountRating(fs, Liked) && s.okay == Reporting.CountRating(fs, Okay) &&
      s.never == Reporting.CountRating(fs, Never)
    ensures s.totalFeedback > 0 ==>
      s.likedPercentage == s.liked as real / s.totalFeedback as real * 100.0 &&
      s.okayPercentage == s.okay as real / s.totalFeedback as real * 100.0 &&
      s.neverPercentage == s.never as real / s.totalFeedback as real * 100.0
  {
    var fs := Reporting.Recent(feedback, Reporting.Cutoff(now, days));
    var total := |fs|;
    if total == 0 then RecentStats(0, 0, 0.0, 0, 0.0, 0, 0.0)
    else
      var liked := Reporting.CountRating(fs, Liked);
      var okay := Reporting.CountRating(fs, Okay);
      var never := Reporting.CountRating(fs, Never);
      Reporting.CountRatingsSum(fs);
      Reporting.PercentagesSum(liked, okay, never);
      RecentStats(total, liked, liked as real / total as real * 100.0,
                  okay, okay as real / total as real * 100.0,
                  never, never as real / total as real * 100.0)
  }

  /** The two services report the same recent summary: the early return on
      an empty period gives what the analytics service computes there. */
  lemma SummariesAgree(feedback: seq<Feedback>, days: int, now: int)
    ensures var a := GetRecentSummary(feedback, days, now);
      var b := Reporting.GetRecentSummary(feedback, days, now);
      a.totalFeedback == b.total && a.liked == b.liked && a.okay == b.okay && a.never == b.never &&
      a.likedPercentage == b.likedPercentage && a.okayPercentage == b.okayPercentage &&
      a.neverPercentage == b.neverPercentage
  {
    var fs := Reporting.Recent(feedback, Reporting.Cutoff(now, days));
    Reporting.CountRatingsSum(fs);
  }

  // ---------------------------------------------------------------------------
  // get_top_liked_episodes / get_never_again_episodes
  // ---------------------------------------------------------------------------

  /** The short episode record of this service. */
  datatype EpisodeBrief = EpisodeBrief(series: string, episodeCode: string, title: Option<string>, count: nat)

  function Brief(e: Reporting.EpisodeCount): EpisodeBrief {
    EpisodeBrief(e.series, e.episodeCode, e.title, e.count)
  }

  function Briefs(es: seq<Reporting.EpisodeCount>): (r: seq<EpisodeBrief>)
    ensures |r| == |es| && forall k :: 0 <= k < |es| ==> r[k] == Brief(es[k])
  {
    seq(|es|, k requires 0 <= k < |es| => Brief(es[k]))
  }

  /** `get_top_liked_episodes`: the grouped liked counts, most first, at most `limit`. */
  function GetTopLikedEpisodes(feedback: seq<Feedback>, plays: seq<PlayHistory>, videos: seq<Video>, limit: int): (r: seq<EpisodeBrief>)
    ensures |r| <= |videos|
    ensures limit >= 0 ==> |r| <= limit
  {
    Briefs(Reporting.GetTopLikedEpisodes(feedback, plays, videos, limit))
  }

  /** Exactly `limit` entries, or all of them for a negative or larger limit,
      ordered by like count descending; each is the short record of a liked
      video with its like count. */
  lemma TopLikedProperties(feedback: seq<Feedback>, plays: seq<PlayHistory>, videos: seq<Video>, limit: int)
    ensures var rows := Reporting.JoinRows(feedback, plays, videos);
      var all := Reporting.EpisodeCounts(videos, rows, Liked);
      var top := GetTopLikedEpisodes(feedback, plays, videos, limit);
      |top| == (if 0 <= limit <= |all| then limit else |all|) &&
      (forall i, j :: 0 <= i < j < |top| ==> top[i].count >= top[j].count) &&
      (forall k :: 0 <= k < |top| ==>
         top[k].count >= 1 &&
         exists e :: e in all && top[k] == Brief(e) && e.count == Reporting.CountVideoRating(rows, e.videoId, Liked))
  {
    var rows := Reporting.JoinRows(feedback, plays, videos);
    var all := Reporting.EpisodeCounts(videos, rows, Liked);
    var full := Reporting.GetTopLikedEpisodes(feedback, plays, videos, limit);
    var top := GetTopLikedEpisodes(feedback, plays, videos, limit);
    Reporting.TopLikedProperties(feedback, plays, videos, limit);
    forall k | 0 <= k < |top|
      ensures top[k].count >= 1
      ensures exists e :: e in all && top[k] == Brief(e) && e.count == Reporting.CountVideoRating(rows, e.videoId, Liked)
    {
      assert full[k] in full;
      assert top[k] == Brief(full[k]);
    }
    forall i, j | 0 <= i < j < |top| ensures top[i].count >= top[j].count {
      assert Reporting.MoreFirst(full[i], full[j]);
    }
  }

  /** No liked video left out has more likes than one listed. */
  lemma TopLikedComplete(feedback: seq<Feedback>, plays: seq<PlayHistory>, videos: seq<Video>, limit: int)
    ensures var all := Reporting.EpisodeCounts(videos, Reporting.JoinRows(feedback, plays, videos), Liked);
      var top := GetTopLikedEpisodes(feedback, plays, videos, limit);
      forall e, d :: e in all && Brief(e) !in top && d in top ==> d.count >= e.count
  {
    var rows := Reporting.JoinRows(feedback, plays, videos);
    var all := Reporting.EpisodeCounts(videos, rows, Liked);
    var full := Reporting.GetTopLikedEpisodes(feedback, plays, videos, limit);
    var top := GetTopLikedEpisodes(feedback, plays, videos, limit);
    Reporting.TopLikedProperties(feedback, plays, videos, limit);
    forall e, d | e in all && Brief(e) !in top && d in top ensures d.count >= e.count {
      var k :| 0 <= k < |top| && top[k] == d;
      assert full[k] in full;
      assert e !in full;
    }
  }


  /** `get_never_again_episodes`: the grouped NEVER counts. */
  function GetNeverAgainEpisodes(feedback: seq<Feedback>, plays: seq<PlayHistory>, videos: seq<Video>): (r: seq<EpisodeBrief>)
    ensures |r| <= |videos|
  {
    Briefs(Reporting.GetNeverAgainEpisodes(feedback, plays, videos))
  }

  /** Every entry has a positive count and belongs to a video rated NEVER. */
  lemma NeverAgainSound(feedback: seq<Feedback>, plays: seq<PlayHistory>, videos: seq<Video>)
    ensures forall e :: e in GetNeverAgainEpisodes(feedback, plays, videos) ==>
      e.count >= 1 &&
      exists v :: v in videos && HasNeverFeedback(plays, feedback, v.id) && v.series == e.series && v.episodeCode == e.episodeCode
  {
    var full := Reporting.GetNeverAgainEpisodes(feedback, plays, videos);
    var briefs := GetNeverAgainEpisodes(feedback, plays, videos);
    var rows := Reporting.JoinRows(feedback, plays, videos);
    Reporting.EpisodeCountsMembers(videos, rows, Never);
    forall e | e in briefs
      ensures e.count >= 1
      ensures exists v :: v in videos && HasNeverFeedback(plays, feedback, v.id) && v.series == e.series && v.episodeCode == e.episodeCode
    {
      var k :| 0 <= k < |briefs| && briefs[k] == e;
      assert full[k] in full;
      var w :| w in videos && Reporting.CountVideoRating(rows, w.id, Never) > 0 &&
        full[k] == Reporting.EpisodeOf(w, Reporting.CountVideoRating(rows, w.id, Never));
      Reporting.NeverAgainProperties(feedback, plays, videos, w);
      assert full[k].videoId == w.id;
    }
  }

  /** With distinct video ids, every video rated NEVER has an entry. */
  lemma NeverAgainComplete(feedback: seq<Feedback>, plays: seq<PlayHistory>, videos: seq<Video>, v: Video)
    requires DistinctIds(videos) && v in videos && HasNeverFeedback(plays, feedback, v.id)
    ensures exists e :: e in GetNeverAgainEpisodes(feedback, plays, videos) && v.series == e.series && v.episodeCode == e.episodeCode
  {
    var full := Reporting.GetNeverAgainEpisodes(feedback, plays, videos);
    var briefs := GetNeverAgainEpisodes(feedback, plays, videos);
    var rows := Reporting.JoinRows(feedback, plays, videos);
    Reporting.EpisodeCountsMembers(videos, rows, Never);
    Reporting.NeverAgainProperties(feedback, plays, videos, v);
    var f :| f in full && f.videoId == v.id;
    var k :| 0 <= k < |full| && full[k] == f;
    var w :| w in videos && Reporting.CountVideoRating(rows, w.id, Never) > 0 &&
      f == Reporting.EpisodeOf(w, Reporting.CountVideoRating(rows, w.id, Never));
    var i :| 0 <= i < |videos| && videos[i] == v;
    var j :| 0 <= j < |videos| && videos[j] == w;
    assert i == j;
    assert briefs[k] in briefs;
  }

  // ---------------------------------------------------------------------------
  // export_to_csv / export_to_json
  // ---------------------------------------------------------------------------

  /** `ORDER BY feedback.submitted_at DESC`. */
  predicate NewerFirst(a: Reporting.Row, b: Reporting.Row) {
    a.feedback.submittedAt >= b.feedback.submittedAt
  }

  lemma NewerFirstIsTotalPreorder()
    ensures TotalPreorder(NewerFirst)
  {
  }

  /** The rows of the export query: the join restricted to the last `days`
      days, newest first. */
  function ExportRows(feedback: seq<Feedback>, plays: seq<PlayHistory>, videos: seq<Video>, days: int, now: int): seq<Reporting.Row> {
    Sort(Reporting.JoinRows(Reporting.Recent(feedback, Reporting.Cutoff(now, days)), plays, videos), NewerFirst)
  }

  /** The export is newest first and holds exactly the joined rows submitted
      since the cutoff, each as often as the join yields it. */
  lemma ExportRowsNewestFirst(feedback: seq<Feedback>, plays: seq<PlayHistory>, videos: seq<Video>, days: int, now: int)
    ensures var rows := ExportRows(feedback, plays, videos, days, now);
      SortedBy(rows, NewerFirst) &&
      multiset(rows) == multiset(Reporting.JoinRows(Reporting.Recent(feedback, Reporting.Cutoff(now, days)), plays, videos)) &&
      forall r :: r in rows <==>
        Reporting.Joins(r, feedback, plays, videos) && r.feedback.submittedAt >= Reporting.Cutoff(now, days)
  {
    var joined := Reporting.JoinRows(Reporting.Recent(feedback, Reporting.Cutoff(now, days)), plays, videos);
    NewerFirstIsTotalPreorder();
    SortSorted(joined, NewerFirst);
    Reporting.JoinRowsMembers(Reporting.Recent(feedback, Reporting.Cutoff(now, days)), plays, videos);
    forall r ensures r in Sort(joined, NewerFirst) <==> r in joined {
      SortMembers(joined, NewerFirst, r);
    }
  }

  /** One object of the JSON export (and one line of the CSV export). */
  datatype DatedRecord = DatedRecord(date: string, series: string, episodeCode: string, rating: string)

  function RecordOf(r: Reporting.Row, isoformat: int -> string): DatedRecord {
    DatedRecord(isoformat(r.feedback.submittedAt), r.video.series, r.video.episodeCode, RatingValue(r.feedback.rating))
  }

  /** `export_to_json`: one object per exported row, in the export's order. */
  function ExportToJson(feedback: seq<Feedback>, plays: seq<PlayHistory>, videos: seq<Video>, days: int, now: int,
                        isoformat: int -> string): (data: seq<DatedRecord>)
    ensures var rows := ExportRows(feedback, plays, videos, days, now);
      |data| == |rows| && forall k :: 0 <= k < |rows| ==> data[k] == RecordOf(rows[k], isoformat)
  {
    var rows := ExportRows(feedback, plays, videos, days, now);
    seq(|rows|, k requires 0 <= k < |rows| => RecordOf(rows[k], isoformat))
  }

  /** Each record's rating reads back as the rating of its feedback row. */
  lemma RecordRatingReadsBack(r: Reporting.Row, isoformat: int -> string)
    ensures RatingFromValue(RecordOf(r, isoformat).rating) == Some(r.feedback.rating)
  {
    RatingHasThreeMembers(r.feedback.rating);
  }

  function CsvHeader(): seq<string> { ["Date", "Series", "Episode", "Rating"] }

  function CsvLine(d: DatedRecord): seq<string> { [d.date, d.series, d.episodeCode, d.rating] }

  /** `export_to_csv`: the header, then the JSON export's records as lines,
      in the same order. */
  method ExportToCsv(feedback: seq<Feedback>, plays: seq<PlayHistory>, videos: seq<Video>, days: int, now: int,
                     isoformat: int -> string) returns (table: seq<seq<string>>)
    ensures var data := ExportToJson(feedback, plays, videos, days, now, isoformat);
      |table| == |data| + 1 && table[0] == CsvHeader() &&
      forall k :: 0 <= k < |data| ==> table[k + 1] == CsvLine(data[k])
  {
    table := [CsvHeader()];
    var rows := ExportRows(feedback, plays, videos, days, now);
    var i := 0;
    while i < |rows|
      invariant 0 <= i <= |rows|
      invariant |table| == i + 1 && table[0] == CsvHeader()
      invariant forall k :: 0 <= k < i ==> table[k + 1] == CsvLine(RecordOf(rows[k], isoformat))
    {
      table := table + [CsvLine(RecordOf(rows[i], isoformat))];
      i := i + 1;
    }
  }
}
