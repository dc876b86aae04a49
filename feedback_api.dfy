/**
 * The feedback service: storing a child's rating of a played episode (one
 * feedback row per play, a later rating replacing the earlier one), rating a
 * whole session by slot, reading the feedback back, and rating every
 * unrated play of a session "okay" when the feedback window times out.
 * The clock is the parameter `now`.
 */
module FeedbackApi {
  import opened Common
  import opened Models
  import opened Store
  import opened Library

  // ---------------------------------------------------------------------------
  // Lookups
  // ---------------------------------------------------------------------------

  /** Index of the first feedback row of play `playId`. */
  function FeedbackIndex(feedback: seq<Feedback>, playId: int): (r: Option<nat>)
    ensures r.None? <==> forall k :: 0 <= k < |feedback| ==> feedback[k].playHistoryId != playId
    ensures r.Some? ==> (r.value < |feedback| && feedback[r.value].playHistoryId == playId &&
      forall k :: 0 <= k < r.value ==> feedback[k].playHistoryId != playId)
  {
    if feedback == [] then None
    else if feedback[0].playHistoryId == playId then Some(0)
    else
      var r := FeedbackIndex(feedback[1..], playId);
      assert forall k :: 1 <= k < |feedback| ==> feedback[k] == feedback[1..][k - 1];
      if r.Some? then Some(r.value + 1) else None
  }

  /** The first row of the play is the one at `k`. */
  lemma {:induction false} FeedbackIndexIs(feedback: seq<Feedback>, playId: int, k: nat)
    requires k < |feedback| && feedback[k].playHistoryId == playId
    requires forall j :: 0 <= j < k ==> feedback[j].playHistoryId != playId
    ensures FeedbackIndex(feedback, playId) == Some(k)
  {
    if k > 0 {
      assert forall j :: 0 <= j < k - 1 ==> feedback[1..][j] == feedback[j + 1];
      FeedbackIndexIs(feedback[1..], playId, k - 1);
    }
  }

  /** Some feedback row belongs to play `playId`. */
  predicate HasFeedback(feedback: seq<Feedback>, playId: int) {
    exists f :: f in feedback && f.playHistoryId == playId
  }

  /** Some play row has id `playId`. */
  predicate PlayExists(plays: seq<PlayHistory>, playId: int) {
    exists k :: 0 <= k < |plays| && plays[k].id == playId
  }

  // ---------------------------------------------------------------------------
  // submit_feedback
  // ---------------------------------------------------------------------------

  /** The feedback table and next id after rating play `playId`: its row is
      updated in place (rating and time) when there is one, else a row is
      appended. */
  function Rated(feedback: seq<Feedback>, nextId: int, playId: int, rating: Rating, now: int): (r: (seq<Feedback>, int))
    ensures r.1 == nextId + |r.0| - |feedback|
    ensures |r.0| == |feedback| <==> exists k :: 0 <= k < |feedback| && feedback[k].playHistoryId == playId
  {
    match FeedbackIndex(feedback, playId)
    case Some(k) => (feedback[k := feedback[k].(rating := rating, submittedAt := now)], nextId)
    case None => (feedback + [Feedback(nextId, playId, rating, now)], nextId + 1)
  }

  /** After rating, the play has exactly the new rating and time in its first
      row, every other row is kept, and the table grows by at most one row. */
  lemma RatedContents(feedback: seq<Feedback>, nextId: int, playId: int, rating: Rating, now: int)
    ensures var (fb, n) := Rated(feedback, nextId, playId, rating, now);
      var k := FeedbackIndex(fb, playId);
      k.Some? && fb[k.value].rating == rating && fb[k.value].submittedAt == now &&
      |feedback| <= |fb| <= |feedback| + 1 && n >= nextId &&
      forall j :: 0 <= j < |feedback| && feedback[j].playHistoryId != playId ==> fb[j] == feedback[j]
  {
    var (fb, n) := Rated(feedback, nextId, playId, rating, now);
    match FeedbackIndex(feedback, playId)
    case Some(k) =>
      assert fb[k].playHistoryId == playId;
      assert forall j :: 0 <= j < k ==> fb[j] == feedback[j];
    case None =>
      assert fb[|feedback|].playHistoryId == playId;
  }

  /** The later rating wins: rating a play twice leaves the table as rating
      it once with the second rating and time. */
  lemma RatedTwice(feedback: seq<Feedback>, nextId: int, playId: int, r1: Rating, t1: int, r2: Rating, t2: int)
    ensures var (fb1, n1) := Rated(feedback, nextId, playId, r1, t1);
      Rated(fb1, n1, playId, r2, t2) == Rated(feedback, nextId, playId, r2, t2)
  {
    var (fb1, n1) := Rated(feedback, nextId, playId, r1, t1);
    match FeedbackIndex(feedback, playId)
    case Some(k) =>
      assert forall j :: 0 <= j < k ==> fb1[j] == feedback[j];
      FeedbackIndexIs(fb1, playId, k);
      var row := feedback[k].(rating := r2, submittedAt := t2);
      assert fb1[k].(rating := r2, submittedAt := t2) == row;
      assert fb1[k := row] == feedback[k := row];
    case None =>
      assert fb1[|feedback|].playHistoryId == playId;
      assert forall j :: 0 <= j < |feedback| ==> fb1[j] == feedback[j];
      FeedbackIndexIs(fb1, playId, |feedback|);
      assert fb1[|feedback| := fb1[|feedback|].(rating := r2, submittedAt := t2)] ==
        feedback + [Feedback(nextId, playId, r2, t2)];
  }

  /** `submit_feedback`: false, changing nothing, when the rating is not one
      of "liked", "okay", "never" or the play does not exist; otherwise the
      play's feedback is set to that rating at `now`. */
  method SubmitFeedback(db: Database, playId: int, rating: string, now: int) returns (ok: bool)
    requires db.Valid()
    modifies db
    ensures db.Valid()
    ensures ok <==> RatingFromValue(rating).Some? && PlayExists(old(db.plays), playId)
    ensures ok ==> (db.feedback, db.nextFeedbackId) == Rated(old(db.feedback), old(db.nextFeedbackId), playId, RatingFromValue(rating).value, now)
    ensures !ok ==> db.feedback == old(db.feedback) && db.nextFeedbackId == old(db.nextFeedbackId)
    ensures db.videos == old(db.videos) && db.sessions == old(db.sessions) && db.plays == old(db.plays)
    ensures db.nextVideoId == old(db.nextVideoId) && db.nextSessionId == old(db.nextSessionId)
    ensures db.nextPlayId == old(db.nextPlayId)
  {
    var r := RatingFromValue(rating);
    if r.None? {
      return false;
    }
    if !PlayExists(db.plays, playId) {
      return false;
    }
    ok := true;
    match FeedbackIndex(db.feedback, playId)
    case Some(k) =>
      db.feedback := db.feedback[k := db.feedback[k].(rating := r.value, submittedAt := now)];
    case None =>
      var _ := db.AddFeedback(playId, r.value, now);
  }

  // ---------------------------------------------------------------------------
  // submit_session_feedback
  // ---------------------------------------------------------------------------

  /** The plays of session `sessionId`, in table order. */
  function PlaysOfSession(plays: seq<PlayHistory>, sessionId: int): (r: seq<PlayHistory>)
    ensures forall p :: p in r <==> p in plays && p.sessionId == sessionId
  {
    if plays == [] then []
    else
      assert plays == [plays[0]] + plays[1..];
      var rest := PlaysOfSession(plays[1..], sessionId);
      if plays[0].sessionId == sessionId then [plays[0]] + rest else rest
  }

  lemma {:induction false} PlaysOfSessionDistinct(plays: seq<PlayHistory>, sessionId: int)
    requires DistinctPlayIds(plays)
    ensures DistinctPlayIds(PlaysOfSession(plays, sessionId))
  {
    if plays != [] {
      var tail := plays[1..];
      assert DistinctPlayIds(tail) by {
        forall i, j | 0 <= i < j < |tail| ensures tail[i].id != tail[j].id {
          assert tail[i] == plays[i + 1] && tail[j] == plays[j + 1];
        }
      }
      PlaysOfSessionDistinct(tail, sessionId);
      var rest := PlaysOfSession(tail, sessionId);
      if plays[0].sessionId == sessionId {
        var r := [plays[0]] + rest;
        forall i, j | 0 <= i < j < |r| ensures r[i].id != r[j].id {
          if i == 0 {
            assert r[j] == rest[j - 1] && rest[j - 1] in tail;
            var m :| 0 <= m < |tail| && tail[m] == r[j];
            assert plays[m + 1] == r[j];
          } else {
            assert r[i] == rest[i - 1] && r[j] == rest[j - 1];
          }
        }
      }
    }
  }

  /** A valid rating of the play's slot, when there is one, is stored as that
      play's feedback. */
  ghost predicate RatingStored(feedback: seq<Feedback>, p: PlayHistory, ratings: map<int, string>) {
    p.slotOrder in ratings && RatingFromValue(ratings[p.slotOrder]).Some? ==>
      exists f :: f in feedback && f.playHistoryId == p.id && f.rating == RatingFromValue(ratings[p.slotOrder]).value
  }

  /** The result map of `submit_session_feedback` built play by play: each
      rated slot maps to whether its rating is valid. */
  function SlotResults(plays: seq<PlayHistory>, ratings: map<int, string>): map<int, bool> {
    if plays == [] then map[]
    else
      var ph := plays[|plays| - 1];
      var m := SlotResults(plays[..|plays| - 1], ratings);
      if ph.slotOrder in ratings then m[ph.slotOrder := RatingFromValue(ratings[ph.slotOrder]).Some?] else m
  }

  /** The result has a key for each rated slot of the session, true exactly
      when the slot's rating is valid. */
  lemma {:induction false} SlotResultsContents(plays: seq<PlayHistory>, ratings: map<int, string>)
    ensures var m := SlotResults(plays, ratings);
      (forall s :: s in m <==> s in ratings && exists p :: p in plays && p.slotOrder == s) &&
      forall s :: s in m ==> m[s] == RatingFromValue(ratings[s]).Some?
  {
    if plays != [] {
      var init := plays[..|plays| - 1];
      var ph := plays[|plays| - 1];
      assert plays == init + [ph];
      SlotResultsContents(init, ratings);
    }
  }

  /** The feedback table and next id after the play's slot rating, when it
      is a valid one, is submitted. */
  function RateSlot(table: (seq<Feedback>, int), ph: PlayHistory, ratings: map<int, string>, now: int): (seq<Feedback>, int) {
    if ph.slotOrder in ratings && RatingFromValue(ratings[ph.slotOrder]).Some? then
      Rated(table.0, table.1, ph.id, RatingFromValue(ratings[ph.slotOrder]).value, now)
    else table
  }

  /** The feedback table and next id after rating the plays in order. */
  function RateSession(feedback: seq<Feedback>, nextId: int, plays: seq<PlayHistory>, ratings: map<int, string>, now: int)
    : (seq<Feedback>, int)
  {
    if plays == [] then (feedback, nextId)
    else RateSlot(RateSession(feedback, nextId, plays[..|plays| - 1], ratings, now), plays[|plays| - 1], ratings, now)
  }

  /** One slot of `submit_session_feedback`: submits the slot's rating for
      the play and reports whether it was accepted. */
  method SubmitSlot(db: Database, ph: PlayHistory, ratings: map<int, string>, now: int) returns (ok: bool)
    requires db.Valid() && ph.slotOrder in ratings && PlayExists(db.plays, ph.id)
    modifies db
    ensures db.Valid()
    ensures ok == RatingFromValue(ratings[ph.slotOrder]).Some?
    ensures (db.feedback, db.nextFeedbackId) == RateSlot((old(db.feedback), old(db.nextFeedbackId)), ph, ratings, now)
    ensures db.videos == old(db.videos) && db.sessions == old(db.sessions) && db.plays == old(db.plays)
  {
    ok := SubmitFeedback(db, ph.id, ratings[ph.slotOrder], now);
  }

  /** `submit_session_feedback`: rates each play of the session whose slot is
      in `ratings`, in table order; the result maps each such slot to whether
      its rating was accepted. */
  method SubmitSessionFeedback(db: Database, sessionId: int, ratings: map<int, string>, now: int)
    returns (results: map<int, bool>)
    requires db.Valid()
    modifies db
    ensures db.Valid()
    ensures results == SlotResults(PlaysOfSession(old(db.plays), sessionId), ratings)
    ensures (db.feedback, db.nextFeedbackId) ==
      RateSession(old(db.feedback), old(db.nextFeedbackId), PlaysOfSession(old(db.plays), sessionId), ratings, now)
    ensures db.videos == old(db.videos) && db.sessions == old(db.sessions) && db.plays == old(db.plays)
  {
    var plays := PlaysOfSession(db.plays, sessionId);
    ghost var fb0 := db.feedback;
    ghost var n0 := db.nextFeedbackId;
    results := map[];
    var i := 0;
    while i < |plays|
      invariant 0 <= i <= |plays| && db.Valid()
      invariant db.videos == old(db.videos) && db.sessions == old(db.sessions) && db.plays == old(db.plays)
      invariant results == SlotResults(plays[..i], ratings)
      invariant (db.feedback, db.nextFeedbackId) == RateSession(fb0, n0, plays[..i], ratings, now)
    {
      results := SubmitSessionSlot(db, sessionId, plays, i, results, ratings, now, fb0, n0);
      i := i + 1;
    }
    assert plays[..i] == plays;
  }

  /** The body of the loop of `submit_session_feedback` for the play at `i`. */
  method SubmitSessionSlot(db: Database, sessionId: int, plays: seq<PlayHistory>, i: nat, results: map<int, bool>,
                           ratings: map<int, string>, now: int, ghost fb0: seq<Feedback>, ghost n0: int)
    returns (results': map<int, bool>)
    requires i < |plays| && plays == PlaysOfSession(db.plays, sessionId) && db.Valid()
    requires results == SlotResults(plays[..i], ratings)
    requires (db.feedback, db.nextFeedbackId) == RateSession(fb0, n0, plays[..i], ratings, now)
    modifies db
    ensures db.Valid()
    ensures db.videos == old(db.videos) && db.sessions == old(db.sessions) && db.plays == old(db.plays)
    ensures results' == SlotResults(plays[..i + 1], ratings)
    ensures (db.feedback, db.nextFeedbackId) == RateSession(fb0, n0, plays[..i + 1], ratings, now)
  {
    var ph := plays[i];
    SessionStep(plays, i, fb0, n0, ratings, now);
    results' := results;
    if ph.slotOrder in ratings {
      PlayOfSessionExists(db.plays, sessionId, ph);
      var ok := SubmitSlot(db, ph, ratings, now);
      results' := results[ph.slotOrder := ok];
    }
  }

  /** A play of the session is a play of the table. */
  lemma PlayOfSessionExists(plays: seq<PlayHistory>, sessionId: int, p: PlayHistory)
    requires p in PlaysOfSession(plays, sessionId)
    ensures PlayExists(plays, p.id)
  {
    var k :| 0 <= k < |plays| && plays[k] == p;
  }

  /** One more play of the loop: how the result map and the table grow. */
  lemma SessionStep(plays: seq<PlayHistory>, i: nat, feedback: seq<Feedback>, nextId: int, ratings: map<int, string>, now: int)
    requires i < |plays|
    ensures var ph := plays[i];
      var m := SlotResults(plays[..i], ratings);
      SlotResults(plays[..i + 1], ratings) == (if ph.slotOrder in ratings then m[ph.slotOrder := RatingFromValue(ratings[ph.slotOrder]).Some?] else m) &&
      RateSession(feedback, nextId, plays[..i + 1], ratings, now) ==
        RateSlot(RateSession(feedback, nextId, plays[..i], ratings, now), ph, ratings, now)
  {
    assert plays[..i + 1][..i] == plays[..i];
  }

  /** Every valid rating ends up stored: when the plays have distinct ids,
      each play whose slot has a valid rating has a row with that rating. */
  lemma {:induction false} RateSessionStored(feedback: seq<Feedback>, nextId: int, plays: seq<PlayHistory>, ratings: map<int, string>, now: int)
    requires DistinctPlayIds(plays)
    ensures forall p :: p in plays ==> RatingStored(RateSession(feedback, nextId, plays, ratings, now).0, p, ratings)
  {
    if plays != [] {
      var init := plays[..|plays| - 1];
      var ph := plays[|plays| - 1];
      assert plays == init + [ph];
      RateSessionStored(feedback, nextId, init, ratings, now);
      var (fb, n) := RateSession(feedback, nextId, init, ratings, now);
      if ph.slotOrder in ratings && RatingFromValue(ratings[ph.slotOrder]).Some? {
        RatedKeeps(fb, n, ph.id, RatingFromValue(ratings[ph.slotOrder]).value, now);
        forall p | p in plays ensures RatingStored(RateSession(feedback, nextId, plays, ratings, now).0, p, ratings) {
          if p != ph {
            var j :| 0 <= j < |init| && init[j] == p;
            assert plays[j] == p;
          }
        }
      }
    }
  }

  /** Rating one play keeps every row of the other plays and gives this play a
      row with the new rating. */
  lemma RatedKeeps(feedback: seq<Feedback>, nextId: int, playId: int, rating: Rating, now: int)
    ensures var fb := Rated(feedback, nextId, playId, rating, now).0;
      (forall f :: f in feedback && f.playHistoryId != playId ==> f in fb) &&
      exists f :: f in fb && f.playHistoryId == playId && f.rating == rating
  {
    RatedContents(feedback, nextId, playId, rating, now);
    var fb := Rated(feedback, nextId, playId, rating, now).0;
    var k := FeedbackIndex(fb, playId).value;
    assert fb[k] in fb;
    forall f | f in feedback && f.playHistoryId != playId ensures f in fb {
      var j :| 0 <= j < |feedback| && feedback[j] == f;
      assert fb[j] == f;
    }
  }

  // ---------------------------------------------------------------------------
  // get_episode_feedback / get_session_feedback
  // ---------------------------------------------------------------------------

  /** One entry of `get_episode_feedback`. */
  datatype EpisodeFeedbackEntry = EpisodeFeedbackEntry(rating: string, submittedAt: int, playHistoryId: int)

  /** `get_episode_feedback`: the feedback rows of the video's plays, in table order. */
  function GetEpisodeFeedback(plays: seq<PlayHistory>, feedback: seq<Feedback>, videoId: int)
    : (r: seq<EpisodeFeedbackEntry>)
    ensures |r| == |FeedbackForVideo(plays, feedback, videoId)|
    ensures forall k :: 0 <= k < |r| ==>
      var f := FeedbackForVideo(plays, feedback, videoId)[k];
      r[k] == EpisodeFeedbackEntry(RatingValue(f.rating), f.submittedAt, f.playHistoryId)
  {
    var fs := FeedbackForVideo(plays, feedback, videoId);
    seq(|fs|, k requires 0 <= k < |fs| => EpisodeFeedbackEntry(RatingValue(fs[k].rating), fs[k].submittedAt, fs[k].playHistoryId))
  }

  /** Every entry is a rating of a play of that video. */
  lemma EpisodeFeedbackOfVideo(plays: seq<PlayHistory>, feedback: seq<Feedback>, videoId: int)
    ensures forall e :: e in GetEpisodeFeedback(plays, feedback, videoId) ==>
      PlayOfVideo(plays, e.playHistoryId, videoId) && e.rating in RatingValues()
  {
    var r := GetEpisodeFeedback(plays, feedback, videoId);
    var fs := FeedbackForVideo(plays, feedback, videoId);
    forall e | e in r ensures PlayOfVideo(plays, e.playHistoryId, videoId) && e.rating in RatingValues() {
      var k :| 0 <= k < |r| && r[k] == e;
      assert fs[k] in fs;
    }
  }

  /** One slot of `get_session_feedback`. */
  datatype SlotFeedback = SlotFeedback(
    videoId: int,
    series: string,
    episodeCode: string,
    hasFeedback: bool,
    rating: Option<string>)

  /** The entry of one play: its video and its first feedback row, if any. */
  function SlotEntry(v: Video, feedback: seq<Feedback>, ph: PlayHistory): SlotFeedback {
    var k := FeedbackIndex(feedback, ph.id);
    SlotFeedback(ph.videoId, v.series, v.episodeCode, k.Some?,
                 if k.Some? then Some(RatingValue(feedback[k.value].rating)) else None)
  }

  /** The slot map built play by play; a later play of the same slot
      overwrites an earlier one. */
  function SlotMap(videos: seq<Video>, feedback: seq<Feedback>, plays: seq<PlayHistory>): (m: map<int, SlotFeedback>)
    requires VideosExist(videos, plays)
  {
    if plays == [] then map[]
    else
      var ph := plays[|plays| - 1];
      assert ph in plays;
      assert forall p :: p in plays[..|plays| - 1] ==> p in plays;
      SlotMap(videos, feedback, plays[..|plays| - 1])[
        ph.slotOrder := SlotEntry(GetVideoById(videos, ph.videoId).value, feedback, ph)]
  }

  /** The map has one key per slot order of the plays. */
  lemma {:induction false} SlotMapKeys(videos: seq<Video>, feedback: seq<Feedback>, plays: seq<PlayHistory>)
    requires VideosExist(videos, plays)
    ensures forall s :: s in SlotMap(videos, feedback, plays) <==> exists p :: p in plays && p.slotOrder == s
  {
    if plays != [] {
      var init := plays[..|plays| - 1];
      var ph := plays[|plays| - 1];
      assert plays == init + [ph];
      assert forall p :: p in init ==> p in plays;
      SlotMapKeys(videos, feedback, init);
    }
  }

  /** Slot `s` of the map holds the entry of a play of that slot: its video,
      and whether the play was rated. */
  ghost predicate SlotOfPlay(videos: seq<Video>, feedback: seq<Feedback>, plays: seq<PlayHistory>, s: int)
    requires VideosExist(videos, plays)
  {
    var m := SlotMap(videos, feedback, plays);
    s in m && exists p :: (p in plays && p.slotOrder == s && m[s].videoId == p.videoId &&
      (m[s].hasFeedback <==> HasFeedback(feedback, p.id)))
  }

  /** Each key holds the entry of a play of that slot. */
  lemma {:induction false} SlotMapEntries(videos: seq<Video>, feedback: seq<Feedback>, plays: seq<PlayHistory>)
    requires VideosExist(videos, plays)
    ensures forall s :: s in SlotMap(videos, feedback, plays) ==> SlotOfPlay(videos, feedback, plays, s)
  {
    if plays != [] {
      var init := plays[..|plays| - 1];
      var ph := plays[|plays| - 1];
      assert plays == init + [ph];
      assert forall p :: p in init ==> p in plays;
      SlotMapEntries(videos, feedback, init);
      var m := SlotMap(videos, feedback, plays);
      var m0 := SlotMap(videos, feedback, init);
      assert m == m0[ph.slotOrder := SlotEntry(GetVideoById(videos, ph.videoId).value, feedback, ph)];
      var k := FeedbackIndex(feedback, ph.id);
      assert m[ph.slotOrder].hasFeedback <==> HasFeedback(feedback, ph.id) by {
        if k.Some? {
          assert feedback[k.value] in feedback;
        }
      }
      forall s | s in m ensures SlotOfPlay(videos, feedback, plays, s) {
        if s == ph.slotOrder {
          assert ph in plays;
        } else {
          assert s in m0 && m[s] == m0[s];
          assert SlotOfPlay(videos, feedback, init, s);
          var p :| p in init && p.slotOrder == s && m0[s].videoId == p.videoId &&
            (m0[s].hasFeedback <==> HasFeedback(feedback, p.id));
          assert p in plays;
        }
      }
    }
  }

  /** `get_session_feedback`: for each slot of the session, the episode and
      its feedback status. */
  method GetSessionFeedback(videos: seq<Video>, plays: seq<PlayHistory>, feedback: seq<Feedback>, sessionId: int)
    returns (data: map<int, SlotFeedback>)
    requires VideosExist(videos, PlaysOfSession(plays, sessionId))
    ensures data == SlotMap(videos, feedback, PlaysOfSession(plays, sessionId))
  {
    var session := PlaysOfSession(plays, sessionId);
    data := map[];
    var i := 0;
    while i < |session|
      invariant 0 <= i <= |session|
      invariant VideosExist(videos, session[..i])
      invariant data == SlotMap(videos, feedback, session[..i])
    {
      var ph := session[i];
      assert ph in session;
      assert session[..i + 1][..i] == session[..i];
      assert forall p :: p in session[..i + 1] ==> p in session;
      var v := GetVideoById(videos, ph.videoId).value;
      data := data[ph.slotOrder := SlotEntry(v, feedback, ph)];
      i := i + 1;
    }
    assert session[..i] == session;
  }

  // ---------------------------------------------------------------------------
  // mark_as_okay_timeout
  // ---------------------------------------------------------------------------

  /** The plays without a feedback row, in table order. */
  function Unrated(plays: seq<PlayHistory>, feedback: seq<Feedback>): seq<PlayHistory> {
    if plays == [] then []
    else
      var ph := plays[|plays| - 1];
      Unrated(plays[..|plays| - 1], feedback) + (if HasFeedback(feedback, ph.id) then [] else [ph])
  }

  /** The unrated plays are exactly the plays without a feedback row. */
  lemma {:induction false} UnratedMembers(plays: seq<PlayHistory>, feedback: seq<Feedback>)
    ensures forall p :: p in Unrated(plays, feedback) <==> p in plays && !HasFeedback(feedback, p.id)
  {
    if plays != [] {
      var init := plays[..|plays| - 1];
      assert plays == init + [plays[|plays| - 1]];
      UnratedMembers(init, feedback);
    }
  }

  /** `table` with an "okay" row at `now` appended for each of `plays`, in
      order and numbered from `nextId`. */
  function AppendOkay(table: seq<Feedback>, nextId: int, plays: seq<PlayHistory>, now: int): seq<Feedback> {
    if plays == [] then table
    else AppendOkay(table, nextId, plays[..|plays| - 1], now) + [Feedback(nextId + |plays| - 1, plays[|plays| - 1].id, Okay, now)]
  }

  /** Appending for one more play appends its row after the others. */
  lemma AppendOkaySnoc(table: seq<Feedback>, nextId: int, plays: seq<PlayHistory>, p: PlayHistory, now: int)
    ensures AppendOkay(table, nextId, plays + [p], now) ==
      AppendOkay(table, nextId, plays, now) + [Feedback(nextId + |plays|, p.id, Okay, now)]
  {
    assert (plays + [p])[..|plays|] == plays;
  }

  /** The appended table keeps `table` as its prefix and holds, after it, the
      k-th play's "okay" row with id `nextId + k`. */
  lemma {:induction false} AppendOkayContents(table: seq<Feedback>, nextId: int, plays: seq<PlayHistory>, now: int)
    ensures var r := AppendOkay(table, nextId, plays, now);
      |r| == |table| + |plays| &&
      (forall k :: 0 <= k < |table| ==> r[k] == table[k]) &&
      forall k :: 0 <= k < |plays| ==> r[|table| + k] == Feedback(nextId + k, plays[k].id, Okay, now)
  {
    if plays != [] {
      var init := plays[..|plays| - 1];
      assert forall k :: 0 <= k < |init| ==> init[k] == plays[k];
      AppendOkayContents(table, nextId, init, now);
    }
  }

  /** The table after the timeout looks at one play: an "okay" row at `now`
      is appended when the play has no row yet. */
  function MarkOne(table: (seq<Feedback>, int), ph: PlayHistory, now: int): (seq<Feedback>, int) {
    if FeedbackIndex(table.0, ph.id).Some? then table
    else (table.0 + [Feedback(table.1, ph.id, Okay, now)], table.1 + 1)
  }

  /** The table after the timeout looked at the plays in order. */
  function MarkSession(feedback: seq<Feedback>, nextId: int, plays: seq<PlayHistory>, now: int): (seq<Feedback>, int) {
    if plays == [] then (feedback, nextId)
    else MarkOne(MarkSession(feedback, nextId, plays[..|plays| - 1], now), plays[|plays| - 1], now)
  }

  /** `mark_as_okay_timeout`: looks at each play of the session in table
      order, appending an "okay" row at `now` for a play without feedback;
      returns how many rows were appended. */
  method MarkAsOkayTimeout(db: Database, sessionId: int, now: int) returns (count: int)
    requires db.Valid()
    modifies db
    ensures db.Valid()
    ensures (db.feedback, db.nextFeedbackId) ==
      MarkSession(old(db.feedback), old(db.nextFeedbackId), PlaysOfSession(old(db.plays), sessionId), now)
    ensures count == |db.feedback| - |old(db.feedback)|
    ensures db.videos == old(db.videos) && db.sessions == old(db.sessions) && db.plays == old(db.plays)
  {
    var session := PlaysOfSession(db.plays, sessionId);
    ghost var fb0 := db.feedback;
    ghost var n0 := db.nextFeedbackId;
    count := 0;
    var i := 0;
    while i < |session|
      invariant 0 <= i <= |session| && db.Valid()
      invariant db.videos == old(db.videos) && db.sessions == old(db.sessions) && db.plays == old(db.plays)
      invariant count == |db.feedback| - |fb0|
      invariant (db.feedback, db.nextFeedbackId) == MarkSession(fb0, n0, session[..i], now)
    {
      assert session[..i + 1][..i] == session[..i];
      var added := MarkSlot(db, session[i], now);
      if added {
        count := count + 1;
      }
      i := i + 1;
    }
    assert session[..i] == session;
  }

  /** The body of the loop of `mark_as_okay_timeout` for one play. */
  method MarkSlot(db: Database, ph: PlayHistory, now: int) returns (added: bool)
    requires db.Valid()
    modifies db
    ensures db.Valid()
    ensures (db.feedback, db.nextFeedbackId) == MarkOne((old(db.feedback), old(db.nextFeedbackId)), ph, now)
    ensures |db.feedback| == |old(db.feedback)| + (if added then 1 else 0)
    ensures db.videos == old(db.videos) && db.sessions == old(db.sessions) && db.plays == old(db.plays)
  {
    var existing := FeedbackIndex(db.feedback, ph.id);
    added := existing.None?;
    if added {
      var _ := db.AddFeedback(ph.id, Okay, now);
    }
  }

  /** When the plays have distinct ids, the timeout appends one "okay" row per
      play that had no feedback before it, in order and numbered from the
      next id. */
  lemma {:induction false} MarkSessionIs(feedback: seq<Feedback>, nextId: int, plays: seq<PlayHistory>, now: int)
    requires DistinctPlayIds(plays)
    ensures var u := Unrated(plays, feedback);
      MarkSession(feedback, nextId, plays, now).0 == AppendOkay(feedback, nextId, u, now) &&
      MarkSession(feedback, nextId, plays, now).1 == nextId + |u|
  {
    if plays != [] {
      var init := plays[..|plays| - 1];
      var ph := plays[|plays| - 1];
      DistinctInit(plays);
      MarkSessionIs(feedback, nextId, init, now);
      MarkSessionStep(feedback, nextId, init, ph, now);
      assert plays == init + [ph];
    }
  }

  /** Without its last play, the plays still have distinct ids, none of them
      that of the last play. */
  lemma DistinctInit(plays: seq<PlayHistory>)
    requires plays != [] && DistinctPlayIds(plays)
    ensures DistinctPlayIds(plays[..|plays| - 1])
    ensures forall p :: p in plays[..|plays| - 1] ==> p.id != plays[|plays| - 1].id
  {
    var init := plays[..|plays| - 1];
    assert forall k :: 0 <= k < |init| ==> init[k] == plays[k];
    forall p | p in init ensures p.id != plays[|plays| - 1].id {
      var j :| 0 <= j < |init| && init[j] == p;
    }
  }

  /** The closed form of the timeout carries over to one more play whose id
      differs from the others. */
  lemma MarkSessionStep(feedback: seq<Feedback>, nextId: int, init: seq<PlayHistory>, ph: PlayHistory, now: int)
    requires forall p :: p in init ==> p.id != ph.id
    requires var u := Unrated(init, feedback);
      MarkSession(feedback, nextId, init, now).0 == AppendOkay(feedback, nextId, u, now) &&
      MarkSession(feedback, nextId, init, now).1 == nextId + |u|
    ensures var u := Unrated(init + [ph], feedback);
      MarkSession(feedback, nextId, init + [ph], now).0 == AppendOkay(feedback, nextId, u, now) &&
      MarkSession(feedback, nextId, init + [ph], now).1 == nextId + |u|
  {
    var plays := init + [ph];
    assert plays[..|plays| - 1] == init;
    var u0 := Unrated(init, feedback);
    UnratedRowsOfOthers(init, ph, feedback, nextId, now);
    if HasFeedback(feedback, ph.id) {
      assert u0 + [] == u0;
    } else {
      AppendOkaySnoc(feedback, nextId, u0, ph, now);
    }
  }

  /** The rows appended for earlier plays belong to none of the later ones, so
      a later play has a row exactly when it had one before. */
  lemma UnratedRowsOfOthers(init: seq<PlayHistory>, ph: PlayHistory, feedback: seq<Feedback>, nextId: int, now: int)
    requires forall p :: p in init ==> p.id != ph.id
    ensures FeedbackIndex(AppendOkay(feedback, nextId, Unrated(init, feedback), now), ph.id).None? <==>
      !HasFeedback(feedback, ph.id)
  {
    var u := Unrated(init, feedback);
    var t := AppendOkay(feedback, nextId, u, now);
    AppendOkayContents(feedback, nextId, u, now);
    UnratedMembers(init, feedback);
    if HasFeedback(feedback, ph.id) {
      var f :| f in feedback && f.playHistoryId == ph.id;
      var j :| 0 <= j < |feedback| && feedback[j] == f;
      assert t[j] == f;
    } else {
      forall k | 0 <= k < |t| ensures t[k].playHistoryId != ph.id {
        if k < |feedback| {
          assert feedback[k] in feedback;
        } else {
          assert u[k - |feedback|] in u;
          assert t[k] == t[|feedback| + (k - |feedback|)];
        }
      }
    }
  }

  /** After the timeout every play of the session has feedback; the count is
      zero exactly when all of them had feedback already, so a second timeout
      adds nothing. */
  lemma MarkAsOkayTimeoutCovers(session: seq<PlayHistory>, feedback: seq<Feedback>, nextId: int, now: int)
    ensures var after := AppendOkay(feedback, nextId, Unrated(session, feedback), now);
      (forall p :: p in session ==> HasFeedback(after, p.id)) &&
      (|Unrated(session, feedback)| == 0 <==> forall p :: p in session ==> HasFeedback(feedback, p.id)) &&
      Unrated(session, after) == []
  {
    var u := Unrated(session, feedback);
    var after := AppendOkay(feedback, nextId, u, now);
    AppendOkayContents(feedback, nextId, u, now);
    UnratedMembers(session, feedback);
    UnratedMembers(session, after);
    forall p | p in session ensures HasFeedback(after, p.id) {
      if !HasFeedback(feedback, p.id) {
        var k :| 0 <= k < |u| && u[k] == p;
        assert after[|feedback| + k].playHistoryId == p.id;
      } else {
        var f :| f in feedback && f.playHistoryId == p.id;
        var j :| 0 <= j < |feedback| && feedback[j] == f;
        assert after[j] == f;
      }
    }
    if |u| != 0 {
      assert u[0] in u;
    }
    if Unrated(session, after) != [] {
      assert Unrated(session, after)[0] in Unrated(session, after);
    }
  }
}
