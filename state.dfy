/**
 * The web application's shared state: what the screen shows (clock, player,
 * feedback form or countdown), the session being played, its playlist and
 * the position in it.  The clock reading `datetime.now()` is the parameter
 * `now`.
 */
module WebState {
  import opened Common

  datatype AppStatus = Idle | Playing | Feedback | Countdown

  /** One playlist entry as the player receives it. */
  datatype PlaylistItem = PlaylistItem(title: Option<string>, path: string)

  class AppState {
    var status: AppStatus
    var currentSessionId: Option<int>
    var currentPlaylist: seq<PlaylistItem>
    var currentVideoIndex: int
    var lastActivity: int
    var countdownTargetTime: Option<int>
    var countdownSessionId: Option<int>

    /** The position never runs past the end of the playlist. */
    ghost predicate Valid()
      reads this
    {
      0 <= currentVideoIndex <= |currentPlaylist|
    }

    /** The first initialisation: idle, no session, an empty playlist. */
    constructor(now: int)
      ensures Valid()
      ensures status == Idle && currentSessionId.None? && currentPlaylist == [] && currentVideoIndex == 0
      ensures lastActivity == now && countdownTargetTime.None? && countdownSessionId.None?
    {
      status := Idle;
      currentSessionId := None;
      currentPlaylist := [];
      currentVideoIndex := 0;
      lastActivity := now;
      countdownTargetTime := None;
      countdownSessionId := None;
    }

    /** `set_status`: changes the status and the activity time only. */
    method SetStatus(s: AppStatus, now: int)
      modifies this
      ensures Valid() <==> old(Valid())
      ensures status == s && lastActivity == now
      ensures currentSessionId == old(currentSessionId) && currentPlaylist == old(currentPlaylist)
      ensures currentVideoIndex == old(currentVideoIndex)
      ensures countdownTargetTime == old(countdownTargetTime) && countdownSessionId == old(countdownSessionId)
    {
      status := s;
      lastActivity := now;
    }

    /** `start_session`: the new session and playlist, from the first video, playing. */
    method StartSession(sessionId: int, playlist: seq<PlaylistItem>, now: int)
      modifies this
      ensures Valid()
      ensures currentSessionId == Some(sessionId) && currentPlaylist == playlist && currentVideoIndex == 0
      ensures status == Playing && lastActivity == now
      ensures countdownTargetTime == old(countdownTargetTime) && countdownSessionId == old(countdownSessionId)
    {
      currentSessionId := Some(sessionId);
      currentPlaylist := playlist;
      currentVideoIndex := 0;
      SetStatus(Playing, now);
    }

    /** `next_video`: the video at the current position, advancing past it;
        at the end of the playlist, nothing, and the feedback form is shown. */
    method NextVideo(now: int) returns (video: Option<PlaylistItem>)
      requires Valid()
      modifies this
      ensures Valid()
      ensures currentSessionId == old(currentSessionId) && currentPlaylist == old(currentPlaylist)
      ensures countdownTargetTime == old(countdownTargetTime) && countdownSessionId == old(countdownSessionId)
      ensures old(currentVideoIndex) < |currentPlaylist| ==>
        video == Some(currentPlaylist[old(currentVideoIndex)]) && currentVideoIndex == old(currentVideoIndex) + 1 &&
        status == old(status) && lastActivity == old(lastActivity)
      ensures old(currentVideoIndex) == |currentPlaylist| ==>
        video.None? && currentVideoIndex == old(currentVideoIndex) && status == Feedback && lastActivity == now
    {
      if currentVideoIndex < |currentPlaylist| {
        video := Some(currentPlaylist[currentVideoIndex]);
        currentVideoIndex := currentVideoIndex + 1;
        return;
      }
      SetStatus(Feedback, now);
      video := None;
    }

    /** `reset`: back to the clock with no session; the countdown is kept. */
    method Reset(now: int)
      modifies this
      ensures Valid()
      ensures currentSessionId.None? && currentPlaylist == [] && currentVideoIndex == 0
      ensures status == Idle && lastActivity == now
      ensures countdownTargetTime == old(countdownTargetTime) && countdownSessionId == old(countdownSessionId)
    {
      currentSessionId := None;
      currentPlaylist := [];
      currentVideoIndex := 0;
      SetStatus(Idle, now);
    }
  }
}
