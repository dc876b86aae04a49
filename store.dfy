/**
 * The database as an in-memory store: one sequence of rows per table and one
 * autoincrement counter per primary key.  `Valid` holds the schema's
 * uniqueness constraints (primary keys, `videos.path`,
 * `feedback.play_history_id`).  Each `Add` method is an `INSERT` followed by
 * a flush, which assigns the next id.
 */
module Store {
  import opened Common
  import opened Models

  class Database {
    var videos: seq<Video>
    var sessions: seq<Session>
    var plays: seq<PlayHistory>
    var feedback: seq<Feedback>
    var nextVideoId: int
    var nextSessionId: int
    var nextPlayId: int
    var nextFeedbackId: int

    ghost predicate Valid()
      reads this
    {
      VideosValid() && SessionsValid() && PlaysValid() && FeedbackValid()
    }

    /** `videos.id` is a primary key below the counter and `videos.path` is unique. */
    ghost predicate VideosValid()
      reads this
    {
      (forall i, j :: 0 <= i < j < |videos| ==> videos[i].id != videos[j].id && videos[i].path != videos[j].path) &&
      (forall i :: 0 <= i < |videos| ==> videos[i].id < nextVideoId)
    }

    ghost predicate SessionsValid()
      reads this
    {
      (forall i, j :: 0 <= i < j < |sessions| ==> sessions[i].id != sessions[j].id) &&
      (forall i :: 0 <= i < |sessions| ==> sessions[i].id < nextSessionId)
    }

    ghost predicate PlaysValid()
      reads this
    {
      (forall i, j :: 0 <= i < j < |plays| ==> plays[i].id != plays[j].id) &&
      (forall i :: 0 <= i < |plays| ==> plays[i].id < nextPlayId)
    }

    /** `feedback.id` is a primary key and `feedback.play_history_id` is unique. */
    ghost predicate FeedbackValid()
      reads this
    {
      (forall i, j :: 0 <= i < j < |feedback| ==>
        feedback[i].id != feedback[j].id && feedback[i].playHistoryId != feedback[j].playHistoryId) &&
      (forall i :: 0 <= i < |feedback| ==> feedback[i].id < nextFeedbackId)
    }

    /** An empty database. */
    constructor ()
      ensures Valid()
      ensures videos == [] && sessions == [] && plays == [] && feedback == []
    {
      videos := [];
      sessions := [];
      plays := [];
      feedback := [];
      nextVideoId := 1;
      nextSessionId := 1;
      nextPlayId := 1;
      nextFeedbackId := 1;
    }

    /** Inserts a session row and returns its new id. */
    method AddSession(showDate: int, status: SessionStatus, generatedAt: int,
                      introPath: Option<string>, outroPath: Option<string>,
                      totalDurationSeconds: Option<int>) returns (id: int)
      requires Valid()
      modifies this
      ensures Valid()
      ensures id == old(nextSessionId) && nextSessionId == id + 1
      ensures forall k :: 0 <= k < |old(sessions)| ==> old(sessions)[k].id != id
      ensures sessions == old(sessions) +
        [Session(id, showDate, status, generatedAt, introPath, outroPath, totalDurationSeconds)]
      ensures videos == old(videos) && plays == old(plays) && feedback == old(feedback)
      ensures nextVideoId == old(nextVideoId) && nextPlayId == old(nextPlayId)
      ensures nextFeedbackId == old(nextFeedbackId)
    {
      id := nextSessionId;
      sessions := sessions + [Session(id, showDate, status, generatedAt, introPath, outroPath, totalDurationSeconds)];
      nextSessionId := id + 1;
    }

    /** Inserts a play row (not started, not completed) and returns its new id. */
    method AddPlay(sessionId: int, videoId: int, slotOrder: int) returns (id: int)
      requires Valid()
      modifies this
      ensures Valid()
      ensures id == old(nextPlayId) && nextPlayId == id + 1
      ensures forall k :: 0 <= k < |old(plays)| ==> old(plays)[k].id != id
      ensures plays == old(plays) + [NewPlay(id, sessionId, videoId, slotOrder)]
      ensures videos == old(videos) && sessions == old(sessions) && feedback == old(feedback)
      ensures nextVideoId == old(nextVideoId) && nextSessionId == old(nextSessionId)
      ensures nextFeedbackId == old(nextFeedbackId)
    {
      id := nextPlayId;
      plays := plays + [NewPlay(id, sessionId, videoId, slotOrder)];
      nextPlayId := id + 1;
    }

    /** `UPDATE play_history SET started_at, ended_at, completed = 1 WHERE id = ...`:
        every row with that id (at most one, by `Valid`) is marked as played. */
    method CompletePlay(id: int, startedAt: int, endedAt: int)
      requires Valid()
      modifies this
      ensures Valid()
      ensures |plays| == |old(plays)|
      ensures forall k :: 0 <= k < |plays| ==>
        plays[k] == if old(plays)[k].id == id then PlayedAt(old(plays)[k], startedAt, endedAt) else old(plays)[k]
      ensures videos == old(videos) && sessions == old(sessions) && feedback == old(feedback)
      ensures nextVideoId == old(nextVideoId) && nextSessionId == old(nextSessionId)
      ensures nextPlayId == old(nextPlayId) && nextFeedbackId == old(nextFeedbackId)
    {
      plays := seq(|plays|, k requires 0 <= k < |plays| reads this =>
        if plays[k].id == id then PlayedAt(plays[k], startedAt, endedAt) else plays[k]);
    }

    /** `UPDATE sessions SET status = ... WHERE id = ...`. */
    method SetSessionStatus(id: int, status: SessionStatus)
      requires Valid()
      modifies this
      ensures Valid()
      ensures |sessions| == |old(sessions)|
      ensures forall k :: 0 <= k < |sessions| ==>
        sessions[k] == if old(sessions)[k].id == id then old(sessions)[k].(status := status) else old(sessions)[k]
      ensures videos == old(videos) && plays == old(plays) && feedback == old(feedback)
      ensures nextVideoId == old(nextVideoId) && nextSessionId == old(nextSessionId)
      ensures nextPlayId == old(nextPlayId) && nextFeedbackId == old(nextFeedbackId)
    {
      sessions := seq(|sessions|, k requires 0 <= k < |sessions| reads this =>
        if sessions[k].id == id then sessions[k].(status := status) else sessions[k]);
    }

    /** Inserts a feedback row for a play that has none yet. */
    method AddFeedback(playHistoryId: int, rating: Rating, submittedAt: int) returns (id: int)
      requires Valid()
      requires forall k :: 0 <= k < |feedback| ==> feedback[k].playHistoryId != playHistoryId
      modifies this
      ensures Valid()
      ensures id == old(nextFeedbackId) && nextFeedbackId == id + 1
      ensures feedback == old(feedback) + [Feedback(id, playHistoryId, rating, submittedAt)]
      ensures videos == old(videos) && sessions == old(sessions) && plays == old(plays)
      ensures nextVideoId == old(nextVideoId) && nextSessionId == old(nextSessionId)
      ensures nextPlayId == old(nextPlayId)
    {
      id := nextFeedbackId;
      feedback := feedback + [Feedback(id, playHistoryId, rating, submittedAt)];
      nextFeedbackId := id + 1;
    }

    /** Inserts a video row for a path not yet in the library. */
    method AddVideo(v: Video) returns (id: int)
      requires Valid()
      requires forall k :: 0 <= k < |videos| ==> videos[k].path != v.path
      modifies this
      ensures Valid()
      ensures id == old(nextVideoId) && nextVideoId == id + 1
      ensures videos == old(videos) + [v.(id := id)]
      ensures sessions == old(sessions) && plays == old(plays) && feedback == old(feedback)
      ensures nextSessionId == old(nextSessionId) && nextPlayId == old(nextPlayId)
      ensures nextFeedbackId == old(nextFeedbackId)
    {
      id := nextVideoId;
      videos := videos + [v.(id := id)];
      nextVideoId := id + 1;
    }
  }
}
