/**
 * The persisted entities of Alma TV: library videos, viewing sessions, the
 * play history of each session slot, the feedback given on a play, and
 * stored requests.  Timestamps are whole seconds on one UTC-naive clock;
 * a session's show date is a day number (midnight of that day).
 */
module Models {
  import opened Common

  /** The three ratings a child can give, with their stored string values. */
  datatype Rating = Liked | Okay | Never

  /** The enumeration value stored for a rating. */
  function RatingValue(r: Rating): (s: string)
    ensures s in RatingValues()
  {
    match r
    case Liked => "liked"
    case Okay => "okay"
    case Never => "never"
  }

  /** The exact strings accepted as ratings, in declaration order. */
  function RatingValues(): seq<string> { ["liked", "okay", "never"] }

  /** `Rating(s)`: the member whose value is `s`, or None (ValueError). */
  function RatingFromValue(s: string): (r: Option<Rating>)
    ensures r.Some? <==> s in RatingValues()
    ensures r.Some? ==> RatingValue(r.value) == s
  {
    if s == "liked" then Some(Liked)
    else if s == "okay" then Some(Okay)
    else if s == "never" then Some(Never)
    else None
  }

  /** The enumeration has exactly three members, with three distinct values. */
  lemma RatingHasThreeMembers(r: Rating)
    ensures RatingFromValue(RatingValue(r)) == Some(r)
    ensures |RatingValues()| == 3
    ensures forall i, j :: 0 <= i < j < 3 ==> RatingValues()[i] != RatingValues()[j]
  {
    match r
    case Liked =>
    case Okay =>
    case Never =>
  }

  datatype SessionStatus = Planned | Completed | Cancelled

  /** One media file of the library. */
  datatype Video = Video(
    id: int,
    series: string,
    season: int,
    episodeCode: string,
    title: Option<string>,
    path: string,
    durationSeconds: int,
    addedAt: int,
    disabled: bool,
    fileHash: Option<string>)

  /** A planned or completed evening's viewing session. */
  datatype Session = Session(
    id: int,
    showDate: int,
    status: SessionStatus,
    generatedAt: int,
    introPath: Option<string>,
    outroPath: Option<string>,
    totalDurationSeconds: Option<int>)

  /** One slot of a session: which video, where in the order, and whether it played. */
  datatype PlayHistory = PlayHistory(
    id: int,
    sessionId: int,
    videoId: int,
    slotOrder: int,
    startedAt: Option<int>,
    endedAt: Option<int>,
    completed: bool)

  /** The rating given for one play. */
  datatype Feedback = Feedback(
    id: int,
    playHistoryId: int,
    rating: Rating,
    submittedAt: int)

  /** One `{"series": ..., "count": ...}` entry of a request payload. */
  datatype RequestItem = RequestItem(series: string, count: int)

  /** The keys of a request payload the scheduler looks at; an absent key is None. */
  datatype Payload = Payload(
    requests: Option<seq<RequestItem>>,
    series: Option<string>,
    count: Option<int>)

  /** A stored parent/child request for specific shows. */
  datatype Request = Request(
    id: int,
    requestDate: int,
    requesterNotes: Option<string>,
    payload: Payload,
    fulfilled: bool,
    fulfilledAt: Option<int>)

  /** A freshly created play row: not yet started, ended or completed. */
  function NewPlay(id: int, sessionId: int, videoId: int, slotOrder: int): (p: PlayHistory)
    ensures p.id == id && p.sessionId == sessionId && p.videoId == videoId && p.slotOrder == slotOrder
    ensures !p.completed && p.startedAt.None? && p.endedAt.None?
  {
    PlayHistory(id, sessionId, videoId, slotOrder, None, None, false)
  }

  /** A play row after its episode ran from `startedAt` to `endedAt`. */
  function PlayedAt(p: PlayHistory, startedAt: int, endedAt: int): PlayHistory {
    p.(startedAt := Some(startedAt), endedAt := Some(endedAt), completed := true)
  }

  /** The `(series, season)` pair the scheduler uses for diversity. */
  function SeriesSeason(v: Video): (string, int) { (v.series, v.season) }

  /** The ids of a list of rows, in order. */
  function VideoIds(vs: seq<Video>): (ids: seq<int>)
    ensures |ids| == |vs|
    ensures forall k :: 0 <= k < |vs| ==> ids[k] == vs[k].id
  {
    if vs == [] then [] else [vs[0].id] + VideoIds(vs[1..])
  }

  /** No two videos of the list share an id. */
  predicate DistinctIds(vs: seq<Video>) {
    forall i, j :: 0 <= i < j < |vs| ==> vs[i].id != vs[j].id
  }

  /** No two play rows share an id. */
  predicate DistinctPlayIds(plays: seq<PlayHistory>) {
    forall i, j :: 0 <= i < j < |plays| ==> plays[i].id != plays[j].id
  }

  /** Sum of the durations of a list of videos. */
  function TotalDuration(vs: seq<Video>): int {
    if vs == [] then 0 else TotalDuration(vs[..|vs| - 1]) + vs[|vs| - 1].durationSeconds
  }

  lemma TotalDurationAppend(vs: seq<Video>, v: Video)
    ensures TotalDuration(vs + [v]) == TotalDuration(vs) + v.durationSeconds
  {
    assert (vs + [v])[..|vs|] == vs;
  }

  // ---------------------------------------------------------------------------
  // Joins between the tables that several services query
  // ---------------------------------------------------------------------------

  /** Some play row with id `playId` is a play of video `vid`. */
  predicate PlayOfVideo(plays: seq<PlayHistory>, playId: int, vid: int) {
    exists p :: p in plays && p.id == playId && p.videoId == vid
  }

  /** The feedback rows joined to a play of video `vid`, in table order. */
  function FeedbackForVideo(plays: seq<PlayHistory>, feedback: seq<Feedback>, vid: int): (r: seq<Feedback>)
    ensures forall f :: f in r <==> f in feedback && PlayOfVideo(plays, f.playHistoryId, vid)
    ensures |r| <= |feedback|
  {
    if feedback == [] then []
    else
      var rest := FeedbackForVideo(plays, feedback[1..], vid);
      assert feedback == [feedback[0]] + feedback[1..];
      if PlayOfVideo(plays, feedback[0].playHistoryId, vid) then [feedback[0]] + rest else rest
  }

  /** Some play of video `vid` was rated NEVER. */
  predicate HasNeverFeedback(plays: seq<PlayHistory>, feedback: seq<Feedback>, vid: int) {
    exists f :: f in feedback && f.rating == Never && PlayOfVideo(plays, f.playHistoryId, vid)
  }

  /** Video `vid` has a completed play that started at or after `cutoff`
      (a play without a start time never matches `started_at >= cutoff`). */
  predicate RecentlyCompleted(plays: seq<PlayHistory>, vid: int, cutoff: int) {
    exists p :: p in plays && p.videoId == vid && p.completed && p.startedAt.Some? && p.startedAt.value >= cutoff
  }

  /** Number of seconds in a day: `timedelta(days=d)` is `d * SecondsPerDay` seconds. */
  const SecondsPerDay: int := 86400

  /** `(later - earlier).days`: whole days, rounded towards minus infinity. */
  function DaysBetween(later: int, earlier: int): int {
    (later - earlier) / SecondsPerDay
  }
}
