/**
 The video player component (src/components/collab-surf/VideoPlayer.tsx): the
 effect that reconciles the local `<video>` element with the shared playback
 record, and the media-event handlers through which only the host publishes.
 */
module Player {
  import opened Wrappers
  import opened Session
  import WatchParty

  /** A local position further than this from the shared one is corrected. */
  const DriftThreshold: real := 1.5

  /** The host republishes its position once it is further than this from the
      shared one. */
  const RepublishThreshold: real := 1.0

  function Abs(x: real): real {
    if x < 0.0 then -x else x
  }

  /** What the component reads from and writes to the `<video>` element.
      `src` is what the element's `src` getter returns. */
  datatype Video = Video(src: string, paused: bool, position: real)

  /** The element is rendered only while the shared record names a video;
      otherwise a placeholder is shown instead and there is no element. */
  predicate ShowsPlaceholder(shared: PlayerState) {
    shared.videoUrl == ""
  }

  /** One run of the sync effect: the element afterwards, and whether `src`
      was assigned (which restarts loading the media). */
  datatype Synced = Synced(video: Video, load: bool)

  /** The sync effect, run whenever the shared record changes. Without an
      element (none is rendered behind the placeholder) it does nothing.
      Otherwise it assigns `src` when the getter's value differs from the
      shared URL, plays or pauses to match, and jumps to the shared position
      when the local one has drifted too far and no local seek is in
      progress. The `src` getter does not return the assigned string but the
      parsed and serialised URL; `resolve` is that mapping, which belongs to
      the browser and is not modelled. */
  function Sync(shared: PlayerState, video: Option<Video>, seeking: bool, resolve: string -> string): (r: Option<Synced>)
    ensures r.Some? <==> video.Some? && !ShowsPlaceholder(shared)
    ensures r.Some? ==> (r.value.load <==> video.value.src != shared.videoUrl)
    ensures r.Some? && r.value.load ==> r.value.video.src == resolve(shared.videoUrl)
    ensures r.Some? && !r.value.load ==> r.value.video.src == video.value.src
    ensures r.Some? ==> r.value.video.paused == !shared.isPlaying
    ensures r.Some? && Abs(video.value.position - shared.currentTime) > DriftThreshold && !seeking ==>
              r.value.video.position == shared.currentTime
    ensures r.Some? && (Abs(video.value.position - shared.currentTime) <= DriftThreshold || seeking) ==>
              r.value.video.position == video.value.position
  {
    if video.None? || ShowsPlaceholder(shared) then None
    else
      var v := video.value;
      var load := v.src != shared.videoUrl;
      var src := if load then resolve(shared.videoUrl) else v.src;
      var paused :=
        if shared.isPlaying && v.paused then false
        else if !shared.isPlaying && !v.paused then true
        else v.paused;
      var position :=
        if Abs(v.position - shared.currentTime) > DriftThreshold && !seeking then shared.currentTime
        else v.position;
      Some(Synced(Video(src, paused, position), load))
  }

  /** The shared URL reads back unchanged from the `src` getter. */
  predicate Canonical(url: string, resolve: string -> string) {
    resolve(url) == url
  }

  /** After the effect (with no seek in progress) the element follows the
      shared record: its source reads back as the shared URL or what the
      browser made of it, it has the shared play state, and its position is
      within the drift threshold. */
  lemma SyncConverges(shared: PlayerState, v: Video, resolve: string -> string)
    requires !ShowsPlaceholder(shared)
    ensures var r := Sync(shared, Some(v), false, resolve).value.video;
      && (r.src == shared.videoUrl || r.src == resolve(shared.videoUrl))
      && (Canonical(shared.videoUrl, resolve) ==> r.src == shared.videoUrl)
      && r.paused == !shared.isPlaying
      && Abs(r.position - shared.currentTime) <= DriftThreshold
  {
  }

  /** Running the effect a second time on the same record leaves the element
      as the first run left it; after a load it assigns `src` again exactly
      when the shared URL is not canonical. */
  lemma SyncIdempotent(shared: PlayerState, video: Option<Video>, seeking: bool, resolve: string -> string)
    ensures var once := Sync(shared, video, seeking, resolve);
      var twice := Sync(shared, if once.Some? then Some(once.value.video) else None, seeking, resolve);
      && (once.Some? <==> twice.Some?)
      && (once.Some? ==> twice.value.video == once.value.video)
      && (once.Some? && once.value.load ==> (twice.value.load <==> !Canonical(shared.videoUrl, resolve)))
      && (once.Some? && !once.value.load ==> !twice.value.load)
  {
  }

  /** A URL the browser does not read back verbatim is loaded afresh on every
      run of the effect. A URL with a leading space is one, whenever the
      browser's URL parser strips leading spaces; the URL form hands such an
      input on untrimmed. The element's current source, itself a value of the
      getter, does not start with a space either. */
  lemma PaddedUrlReloads(isPlaying: bool, time: real, stamp: Option<string>, v: Video, seeking: bool,
                         resolve: string -> string)
    requires forall u :: resolve(u) == [] || resolve(u)[0] != ' '
    requires v.src == [] || v.src[0] != ' '
    ensures var shared := PlayerState(" a", isPlaying, time, stamp);
      var once := Sync(shared, Some(v), seeking, resolve);
      && once.Some? && once.value.load
      && Sync(shared, Some(once.value.video), seeking, resolve).value.load
  {
    var shared := PlayerState(" a", isPlaying, time, stamp);
    assert resolve(" a") != " a" by {
      assert " a"[0] == ' ';
      assert resolve(" a") == [] || resolve(" a")[0] != ' ';
    }
    assert v.src != " a" by {
      if v.src != [] { assert v.src[0] != " a"[0]; }
    }
  }

  /** While a local seek is in progress the position is never overridden. */
  lemma SeekingKeepsPosition(shared: PlayerState, v: Video, resolve: string -> string)
    ensures var r := Sync(shared, Some(v), true, resolve);
      (r.Some? <==> !ShowsPlaceholder(shared)) && (r.Some? ==> r.value.video.position == v.position)
  {
  }

  /** Two concrete cases of the threshold: a guest at 10 s with the host at
      12 s jumps to 12 s; at 10.5 s it stays where it is. */
  lemma DriftExamples(v: Video, resolve: string -> string)
    requires v.position == 10.0
    ensures Sync(PlayerState("m.mp4", true, 12.0, None), Some(v), false, resolve).value.video.position == 12.0
    ensures Sync(PlayerState("m.mp4", true, 10.5, None), Some(v), false, resolve).value.video.position == 10.0
  {
  }

  /** The media events the component listens to. */
  datatype MediaEvent = Play | Pause | TimeUpdate | Seeking | Seeked

  /** The handler's effect: the `isSeeking` flag afterwards and the record
      passed to `setPlayerState`, if any. */
  datatype Reaction = Reaction(seeking: bool, publish: Option<PlayerState>)

  /** The media-event handlers. Play and pause publish the play state, a time
      update republishes the position when it has drifted more than the
      republish threshold and no seek is in progress, and the end of a seek
      publishes the position; all of these only on the host. A seek start
      raises the flag and the end of a seek lowers it on every client. */
  function OnMediaEvent(e: MediaEvent, isHost: bool, shared: PlayerState, video: Option<Video>, seeking: bool): (r: Reaction)
    ensures !isHost ==> r.publish.None?
    ensures e.Play? ==> r.seeking == seeking && (isHost ==> r.publish == Some(shared.(isPlaying := true)))
    ensures e.Pause? ==> r.seeking == seeking && (isHost ==> r.publish == Some(shared.(isPlaying := false)))
    ensures e.TimeUpdate? ==> r.seeking == seeking
    ensures e.TimeUpdate? ==>
              (r.publish.Some? <==>
                 video.Some? && isHost && !seeking && Abs(video.value.position - shared.currentTime) > RepublishThreshold)
    ensures e.TimeUpdate? && r.publish.Some? ==> r.publish == Some(shared.(currentTime := video.value.position))
    ensures e.Seeking? ==> r.seeking && r.publish.None?
    ensures e.Seeked? ==> !r.seeking
    ensures e.Seeked? ==> (r.publish.Some? <==> video.Some? && isHost)
    ensures e.Seeked? && r.publish.Some? ==> r.publish == Some(shared.(currentTime := video.value.position))
  {
    match e
    case Play => Reaction(seeking, if isHost then Some(shared.(isPlaying := true)) else None)
    case Pause => Reaction(seeking, if isHost then Some(shared.(isPlaying := false)) else None)
    case TimeUpdate =>
      if video.None? || !isHost || seeking then Reaction(seeking, None)
      else if Abs(video.value.position - shared.currentTime) > RepublishThreshold then
        Reaction(seeking, Some(shared.(currentTime := video.value.position)))
      else Reaction(seeking, None)
    case Seeking => Reaction(true, None)
    case Seeked =>
      Reaction(false, if video.Some? && isHost then Some(shared.(currentTime := video.value.position)) else None)
  }

  /** The host is never yanked back by its own record: after any time update
      it handles with no seek in progress (publishing through the watch-party
      hook if it does publish), the sync effect leaves its position alone,
      because the republish threshold lies below the drift threshold. */
  lemma HostNeverSelfCorrected(sessionId: string, userId: string, shared: PlayerState, v: Video,
                                resolve: string -> string)
    requires sessionId != ""
    ensures var reaction := OnMediaEvent(TimeUpdate, true, shared, Some(v), false);
      var next := if reaction.publish.Some?
                  then WatchParty.SetPlayerState(sessionId, userId, shared, reaction.publish.value).local
                  else shared;
      var r := Sync(next, Some(v), false, resolve);
      r.Some? ==> r.value.video.position == v.position
  {
  }

  /** A seek cycle on a guest: the flag goes up and comes back down, and
      nothing is published at either end. */
  lemma GuestSeekCycle(shared: PlayerState, video: Option<Video>, seeking: bool)
    ensures var start := OnMediaEvent(Seeking, false, shared, video, seeking);
      var end := OnMediaEvent(Seeked, false, shared, video, start.seeking);
      start.seeking && !end.seeking && start.publish.None? && end.publish.None?
  {
  }
}
