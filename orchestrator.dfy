/**
 * The playback orchestrator: decides whether the scheduled start time has
 * come, finds (or generates) the day's session, and plays it as intro, the
 * episodes in slot order, then outro, marking each episode that played to
 * the end as completed and, after a real (not dry) run, the session as
 * completed.
 *
 * The filesystem, the media player and the clock are the `Environment`
 * parameter: which paths exist, whether the player reports success for a
 * file, and the times taken before and after each episode.
 */
module Orchestrator {
  import opened Common
  import opened Models
  import opened Sorting
  import opened Store
  import opened Library
  import opened Weights
  import opened Lineup
  import opened FeedbackApi
  import Settings

  // ---------------------------------------------------------------------------
  // _should_play_now
  // ---------------------------------------------------------------------------

  /** Seconds after local midnight of a valid `HH:MM` start time. */
  function StartOffset(startTime: string): (r: int)
    requires Settings.ValidateTimeFormat(startTime).Some?
    ensures 0 <= r <= SecondsPerDay - 60
  {
    var hm := Settings.HourMinute(startTime).value;
    assert hm.0 * 3600 <= 23 * 3600 && hm.1 * 60 <= 59 * 60;
    hm.0 * 3600 + hm.1 * 60
  }

  /** `_should_play_now`: `now` is local wall-clock time in whole seconds; the
      target is today's date at `HH:MM:00`, and the check fires when `now` is
      less than a minute away from it.  The window is taken within the current
      day only: it never reaches across midnight. */
  function ShouldPlayNow(now: int, startTime: string): (r: bool)
    requires Settings.ValidateTimeFormat(startTime).Some?
    ensures r <==> StartOffset(startTime) - 60 < now % SecondsPerDay < StartOffset(startTime) + 60
  {
    var target := now - now % SecondsPerDay + StartOffset(startTime);
    Abs(now - target) < 60
  }

  /** With a midnight start, thirty seconds before midnight is not "within a
      minute" of the start: today's target is nearly a day in the past. */
  lemma NoWrapAtMidnight(now: int)
    requires now % SecondsPerDay == SecondsPerDay - 30
    ensures Settings.ValidateTimeFormat("00:00").Some? && !ShouldPlayNow(now, "00:00")
  {
    assert "00:00" == "00" + ":" + "00";
    Settings.TimeOfDigits("00", "00");
  }

  // ---------------------------------------------------------------------------
  // _play_file and _play_session_sequence
  // ---------------------------------------------------------------------------

  /** What the orchestrator observes of the outside world. */
  datatype Environment = Environment(
    fileExists: string -> bool,
    playerSucceeds: string -> bool,
    startedAt: int -> int,
    endedAt: int -> int)

  /** `_play_file`: a missing file fails without reaching the player;
      otherwise the player's verdict. */
  function PlayFile(env: Environment, path: string): (r: bool)
    ensures !env.fileExists(path) ==> !r
    ensures env.fileExists(path) ==> (r <==> env.playerSucceeds(path))
  {
    env.fileExists(path) && env.playerSucceeds(path)
  }

  /** The intro or outro is handed to the player when its path is set (and
      not empty) and the file exists. */
  function Bumper(env: Environment, path: Option<string>): (r: seq<string>)
    ensures |r| <= 1
    ensures r != [] <==> path.Some? && path.value != "" && env.fileExists(path.value)
    ensures r != [] ==> r == [path.value]
  {
    if path.Some? && path.value != "" && env.fileExists(path.value) then [path.value] else []
  }

  /** The file of a play row's video. */
  function EpisodeFile(videos: seq<Video>, p: PlayHistory): Option<string> {
    match GetVideoById(videos, p.videoId)
    case Some(v) => Some(v.path)
    case None => None
  }

  /** The episode's file exists, so `_play_file` hands it to the player. */
  predicate Attempt(videos: seq<Video>, env: Environment, p: PlayHistory) {
    EpisodeFile(videos, p).Some? && env.fileExists(EpisodeFile(videos, p).value)
  }

  /** The episode played to the end. */
  predicate Succeeds(videos: seq<Video>, env: Environment, p: PlayHistory) {
    EpisodeFile(videos, p).Some? && PlayFile(env, EpisodeFile(videos, p).value)
  }

  predicate BySlot(a: PlayHistory, b: PlayHistory) { a.slotOrder <= b.slotOrder }

  lemma BySlotIsTotalPreorder()
    ensures TotalPreorder(BySlot)
  {
  }

  /** The session's rows sorted by slot order; rows of one slot stay in table order. */
  function Ordered(plays: seq<PlayHistory>, sessionId: int): (r: seq<PlayHistory>)
    ensures forall p :: p in r <==> p in plays && p.sessionId == sessionId
  {
    var mine := PlaysOfSession(plays, sessionId);
    assert forall p :: p in Sort(mine, BySlot) <==> p in mine by {
      forall p ensures p in Sort(mine, BySlot) <==> p in mine {
        SortMembers(mine, BySlot, p);
      }
    }
    Sort(mine, BySlot)
  }

  /** The rows whose episode file is handed to the player, in their order. */
  function Attempted(videos: seq<Video>, env: Environment, rows: seq<PlayHistory>): (r: seq<PlayHistory>)
    ensures forall p :: p in r <==> p in rows && Attempt(videos, env, p)
  {
    if rows == [] then []
    else
      var init := Attempted(videos, env, rows[..|rows| - 1]);
      var p := rows[|rows| - 1];
      assert rows == rows[..|rows| - 1] + [p];
      if Attempt(videos, env, p) then init + [p] else init
  }

  /** The episode files of a list of rows. */
  function Paths(videos: seq<Video>, rows: seq<PlayHistory>): (r: seq<string>)
    ensures |r| == |rows|
  {
    if rows == [] then []
    else
      var file := EpisodeFile(videos, rows[|rows| - 1]);
      Paths(videos, rows[..|rows| - 1]) + [if file.Some? then file.value else ""]
  }

  /** Every file handed to the player during the session, in order. */
  function Schedule(videos: seq<Video>, env: Environment, session: Session, plays: seq<PlayHistory>): seq<string> {
    Bumper(env, session.introPath) + Paths(videos, Attempted(videos, env, Ordered(plays, session.id))) +
    Bumper(env, session.outroPath)
  }

  /** A row after the session ran: the session's rows whose episode played
      are stamped and completed; every other row is as it was. */
  function AfterPlay(videos: seq<Video>, env: Environment, sessionId: int, p: PlayHistory): (q: PlayHistory)
    ensures q.id == p.id && q.sessionId == p.sessionId && q.videoId == p.videoId && q.slotOrder == p.slotOrder
    ensures q.completed <==> p.completed || (p.sessionId == sessionId && Succeeds(videos, env, p))
    ensures !(p.sessionId == sessionId && Succeeds(videos, env, p)) ==> q == p
    ensures p.sessionId == sessionId && Succeeds(videos, env, p) ==>
      q.startedAt == Some(env.startedAt(p.id)) && q.endedAt == Some(env.endedAt(p.id))
  {
    if p.sessionId == sessionId && Succeeds(videos, env, p) then PlayedAt(p, env.startedAt(p.id), env.endedAt(p.id))
    else p
  }

  /** The episodes handed to the player are exactly the session's rows whose
      file exists, and they go in ascending slot order. */
  lemma ScheduleOrder(videos: seq<Video>, env: Environment, plays: seq<PlayHistory>, sessionId: int)
    ensures var a := Attempted(videos, env, Ordered(plays, sessionId));
      SortedBy(a, BySlot) &&
      forall p :: p in a <==> p in plays && p.sessionId == sessionId && Attempt(videos, env, p)
  {
    BySlotIsTotalPreorder();
    SortSorted(PlaysOfSession(plays, sessionId), BySlot);
    AttemptedSorted(videos, env, Ordered(plays, sessionId));
  }

  lemma {:induction false} AttemptedSorted(videos: seq<Video>, env: Environment, rows: seq<PlayHistory>)
    requires SortedBy(rows, BySlot)
    ensures SortedBy(Attempted(videos, env, rows), BySlot)
  {
    if rows != [] {
      var front := rows[..|rows| - 1];
      var last := rows[|rows| - 1];
      assert SortedBy(front, BySlot);
      AttemptedSorted(videos, env, front);
      var init := Attempted(videos, env, front);
      forall q | q in init ensures BySlot(q, last) {
        var m :| 0 <= m < |front| && front[m] == q;
      }
    }
  }

  /** A row as the slot loop leaves it once it has processed `rows`. */
  function Stamp(videos: seq<Video>, env: Environment, rows: seq<PlayHistory>, p: PlayHistory): PlayHistory {
    if p in rows && Succeeds(videos, env, p) then PlayedAt(p, env.startedAt(p.id), env.endedAt(p.id)) else p
  }

  /** The table after the slot loop has processed `rows`. */
  ghost predicate StampedUpTo(videos: seq<Video>, env: Environment, rows: seq<PlayHistory>,
                              before: seq<PlayHistory>, after: seq<PlayHistory>)
  {
    |after| == |before| &&
    forall k :: 0 <= k < |before| ==> after[k] == Stamp(videos, env, rows, before[k])
  }

  /** Once the loop has processed every row of the session, the table is the
      one `AfterPlay` describes. */
  lemma StampedIsAfterPlay(videos: seq<Video>, env: Environment, plays: seq<PlayHistory>, sessionId: int,
                           after: seq<PlayHistory>)
    requires StampedUpTo(videos, env, Ordered(plays, sessionId), plays, after)
    ensures |after| == |plays|
    ensures forall k :: 0 <= k < |plays| ==> after[k] == AfterPlay(videos, env, sessionId, plays[k])
  {
    forall k | 0 <= k < |plays| ensures after[k] == AfterPlay(videos, env, sessionId, plays[k]) {
      assert plays[k] in plays;
    }
  }

  /** Stamping by id stamps exactly the processed row, since play ids are unique. */
  lemma StampStep(videos: seq<Video>, env: Environment, rows: seq<PlayHistory>, p: PlayHistory,
                  before: seq<PlayHistory>, after: seq<PlayHistory>, next: seq<PlayHistory>)
    requires DistinctPlayIds(before) && p in before
    requires StampedUpTo(videos, env, rows, before, after)
    requires |next| == |after|
    requires forall k :: 0 <= k < |after| ==>
      next[k] == if after[k].id == p.id && Succeeds(videos, env, p)
        then PlayedAt(after[k], env.startedAt(p.id), env.endedAt(p.id)) else after[k]
    ensures StampedUpTo(videos, env, rows + [p], before, next)
  {
    forall k | 0 <= k < |before| ensures next[k] == Stamp(videos, env, rows + [p], before[k]) {
      if before[k].id == p.id {
        var m :| 0 <= m < |before| && before[m] == p;
        assert m == k;
      }
    }
  }

  /** One pass of the slot loop: the row's file is handed to the player when
      it exists, and a successful play stamps the row. */
  method PlayEpisode(db: Database, env: Environment, rows: seq<PlayHistory>, i: nat,
                     ghost before: seq<PlayHistory>)
    returns (file: seq<string>)
    requires i < |rows|
    requires db.Valid() && DistinctPlayIds(before) && rows[i] in before
    requires EpisodeFile(db.videos, rows[i]).Some?
    requires StampedUpTo(db.videos, env, rows[..i], before, db.plays)
    modifies db
    ensures db.Valid()
    ensures db.videos == old(db.videos) && db.sessions == old(db.sessions) && db.feedback == old(db.feedback)
    ensures StampedUpTo(db.videos, env, rows[..i + 1], before, db.plays)
    ensures file == if Attempt(db.videos, env, rows[i]) then [EpisodeFile(db.videos, rows[i]).value] else []
  {
    var p := rows[i];
    assert rows[..i + 1] == rows[..i] + [p];
    var path := GetVideoById(db.videos, p.videoId).value.path;
    file := if env.fileExists(path) then [path] else [];
    ghost var after := db.plays;
    if PlayFile(env, path) {
      db.CompletePlay(p.id, env.startedAt(p.id), env.endedAt(p.id));
    }
    StampStep(db.videos, env, rows[..i], p, before, after, db.plays);
  }

  /** `Attempted` and `Paths` of a list extended by one row. */
  lemma AttemptedSnoc(videos: seq<Video>, env: Environment, rows: seq<PlayHistory>, i: nat)
    requires i < |rows|
    ensures Paths(videos, Attempted(videos, env, rows[..i + 1])) ==
      Paths(videos, Attempted(videos, env, rows[..i])) +
      (if Attempt(videos, env, rows[i]) then [EpisodeFile(videos, rows[i]).value] else [])
  {
    var p := rows[i];
    assert rows[..i + 1][..i] == rows[..i];
    var init := Attempted(videos, env, rows[..i]);
    if Attempt(videos, env, p) {
      assert (init + [p])[..|init|] == init;
    }
  }

  /** `_play_session_sequence`: the intro, then each of the session's rows in
      slot order (a failed episode is skipped and its row left as it was),
      then the outro; always reports success.  `played` is the list of files
      handed to the player. */
  method PlaySessionSequence(db: Database, session: Session, env: Environment)
    returns (ok: bool, played: seq<string>)
    requires db.Valid()
    requires VideosExist(db.videos, PlaysOfSession(db.plays, session.id))
    modifies db
    ensures db.Valid()
    ensures ok
    ensures played == Schedule(old(db.videos), env, session, old(db.plays))
    ensures |db.plays| == |old(db.plays)|
    ensures forall k :: 0 <= k < |db.plays| ==> db.plays[k] == AfterPlay(db.videos, env, session.id, old(db.plays)[k])
    ensures db.videos == old(db.videos) && db.sessions == old(db.sessions) && db.feedback == old(db.feedback)
  {
    var order := Ordered(db.plays, session.id);
    ghost var before := db.plays;
    assert DistinctPlayIds(before) by { assert db.PlaysValid(); }
    var episodes := [];
    var i := 0;
    while i < |order|
      invariant 0 <= i <= |order|
      invariant db.Valid() && before == old(db.plays)
      invariant db.videos == old(db.videos) && db.sessions == old(db.sessions) && db.feedback == old(db.feedback)
      invariant episodes == Paths(db.videos, Attempted(db.videos, env, order[..i]))
      invariant StampedUpTo(db.videos, env, order[..i], before, db.plays)
    {
      assert order[i] in order && order[i] in PlaysOfSession(before, session.id);
      AttemptedSnoc(db.videos, env, order, i);
      var file := PlayEpisode(db, env, order, i, before);
      episodes := episodes + file;
      i := i + 1;
    }
    assert order[..i] == order;
    played := Bumper(env, session.introPath) + episodes + Bumper(env, session.outroPath);
    StampedIsAfterPlay(db.videos, env, before, session.id, db.plays);
    ok := true;
  }

  // ---------------------------------------------------------------------------
  // play_session
  // ---------------------------------------------------------------------------

  /** The first session of a day, after the rows with some id change status,
      is the same session with that status when it carries that id. */
  lemma {:induction false} SessionOnRestatus(sessions: seq<Session>, after: seq<Session>, day: int, id: int,
                                             status: SessionStatus)
    requires SessionOn(sessions, day).Some? && SessionOn(sessions, day).value.id == id
    requires |after| == |sessions|
    requires forall k :: 0 <= k < |sessions| ==>
      after[k] == if sessions[k].id == id then sessions[k].(status := status) else sessions[k]
    ensures SessionOn(after, day) == Some(SessionOn(sessions, day).value.(status := status))
  {
    if sessions[0].showDate != day {
      assert after[0].showDate != day;
      SessionOnRestatus(sessions[1..], after[1..], day, id, status);
    }
  }

  /** A session appended to a table with none for its day is that day's session. */
  lemma {:induction false} SessionOnAppend(sessions: seq<Session>, s: Session)
    requires SessionOn(sessions, s.showDate).None?
    ensures SessionOn(sessions + [s], s.showDate) == Some(s)
  {
    if sessions != [] {
      assert (sessions + [s])[1..] == sessions[1..] + [s];
      assert SessionOn(sessions[1..], s.showDate).None?;
      SessionOnAppend(sessions[1..], s);
    }
  }

  /** `play_session`: the day's session, generated when there is none
      (failure to generate gives False); a dry run only reports what it would
      play; otherwise the session is played and marked completed.
      `introSeconds` and `outroSeconds` are the probed durations of the
      configured intro and outro files, `now` the generation time and `decay`
      the weight calculator's recency factor. */
  method PlaySession(db: Database, config: Settings.Config, env: Environment, targetDay: int,
                     introSeconds: int, outroSeconds: int, now: int, decay: int -> real)
    returns (ok: bool, played: seq<string>)
    requires db.Valid()
    requires VideosExist(db.videos, db.plays)
    requires forall v :: v in db.videos ==> LastPlayDefined(db.plays, v.id)
    modifies db
    ensures db.Valid()
    ensures SessionOn(old(db.sessions), targetDay).Some? ==> ok
    ensures !ok ==> played == [] && db.sessions == old(db.sessions) && db.plays == old(db.plays)
    ensures (!ok && NonNegativeDurations(old(db.videos))) ==>
      forall v :: Drawable(old(db.videos), old(db.plays), old(db.feedback), NormalizePayload(None),
                           config.repeatCooldownDays, now, decay, v) ==>
        v.durationSeconds > AvailableDuration(config.targetDurationMinutes,
                                              if env.fileExists(config.introPath) then introSeconds else 0,
                                              if env.fileExists(config.outroPath) then outroSeconds else 0) +
                            RuntimeTolerance
    ensures ok ==> SessionOn(db.sessions, targetDay).Some?
    ensures ok && !config.dryRun ==> SessionOn(db.sessions, targetDay).value.status == Completed
    ensures config.dryRun ==> played == []
    ensures config.dryRun && SessionOn(old(db.sessions), targetDay).Some? ==>
      db.sessions == old(db.sessions) && db.plays == old(db.plays)
    ensures !config.dryRun && SessionOn(old(db.sessions), targetDay).Some? ==>
      var s := SessionOn(old(db.sessions), targetDay).value;
      played == Schedule(old(db.videos), env, s, old(db.plays)) &&
      |db.plays| == |old(db.plays)| &&
      (forall k :: 0 <= k < |db.plays| ==> db.plays[k] == AfterPlay(db.videos, env, s.id, old(db.plays)[k]))
    ensures db.videos == old(db.videos) && db.feedback == old(db.feedback)
  {
    var session := SessionOn(db.sessions, targetDay);
    if session.None? {
      var intro := if env.fileExists(config.introPath) then introSeconds else 0;
      var outro := if env.fileExists(config.outroPath) then outroSeconds else 0;
      ghost var sessions0 := db.sessions;
      var id := GenerateLineup(db, targetDay, config.targetDurationMinutes, 3, 5, None, intro, outro,
                               Some(config.introPath), Some(config.outroPath), config.repeatCooldownDays, now, decay);
      if id.None? {
        return false, [];
      }
      assert db.sessions == sessions0 + [db.sessions[|sessions0|]];
      SessionOnAppend(sessions0, db.sessions[|sessions0|]);
      session := SessionOn(db.sessions, targetDay);
    }
    if config.dryRun {
      return true, [];
    }
    var s := session.value;
    assert s in db.sessions;
    PlaysOfSessionExist(db.videos, db.plays, s.id);
    ok, played := PlaySessionSequence(db, s, env);
    ghost var sessions1 := db.sessions;
    db.SetSessionStatus(s.id, Completed);
    SessionOnRestatus(sessions1, db.sessions, targetDay, s.id, Completed);
  }

  /** How `play_session` ends as written. */
  datatype Outcome = Returned(ok: bool) | DetachedInstance

  /** `play_session` as written (orchestrator.py:107-127). The session row is
      loaded inside a `get_db()` block; leaving the block commits, which
      expires every loaded instance, and closes, which detaches it. The dry run
      and the playback sequence both begin by reading `session.intro_path`, so
      every path that holds a session raises `DetachedInstanceError` before
      anything is played. Only a failed generation returns, with False.
      `PlaySession` is the intended behaviour, which plays the session. */
  method PlaySessionAsWritten(db: Database, config: Settings.Config, env: Environment, targetDay: int,
                              introSeconds: int, outroSeconds: int, now: int, decay: int -> real)
    returns (outcome: Outcome)
    requires db.Valid()
    requires VideosExist(db.videos, db.plays)
    requires forall v :: v in db.videos ==> LastPlayDefined(db.plays, v.id)
    modifies db
    ensures db.Valid()
    ensures outcome.DetachedInstance? <==> SessionOn(db.sessions, targetDay).Some?
    ensures outcome.Returned? ==> !outcome.ok && db.sessions == old(db.sessions) && db.plays == old(db.plays)
    ensures SessionOn(old(db.sessions), targetDay).Some? ==>
      outcome.DetachedInstance? && db.sessions == old(db.sessions) && db.plays == old(db.plays)
    ensures db.videos == old(db.videos) && db.feedback == old(db.feedback)
  {
    var session := SessionOn(db.sessions, targetDay);
    if session.None? {
      var intro := if env.fileExists(config.introPath) then introSeconds else 0;
      var outro := if env.fileExists(config.outroPath) then outroSeconds else 0;
      ghost var sessions0 := db.sessions;
      var id := GenerateLineup(db, targetDay, config.targetDurationMinutes, 3, 5, None, intro, outro,
                               Some(config.introPath), Some(config.outroPath), config.repeatCooldownDays, now, decay);
      if id.None? {
        return Returned(false);
      }
      assert db.sessions == sessions0 + [db.sessions[|sessions0|]];
      SessionOnAppend(sessions0, db.sessions[|sessions0|]);
    }
    outcome := DetachedInstance;
  }

  /** The foreign key holds for the rows of any one session. */
  lemma PlaysOfSessionExist(videos: seq<Video>, plays: seq<PlayHistory>, sessionId: int)
    requires VideosExist(videos, plays)
    ensures VideosExist(videos, PlaysOfSession(plays, sessionId))
  {
  }
}
