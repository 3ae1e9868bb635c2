/**
 The session document `sessions/{sessionId}` as the watch-party hook and the
 shared-browser hook both see it, and the writes they make to it. The store
 itself is not modelled: a write is a value, and `Apply` gives the document a
 subscriber sees once the write has landed.
 */
module Session {
  import opened Wrappers

  /** The shared playback record. `lastUpdatedBy` is absent on the default
      record and set to the writer's id by every client-originated update. */
  datatype PlayerState = PlayerState(
    videoUrl: string,
    isPlaying: bool,
    currentTime: real,
    lastUpdatedBy: Option<string>)

  /** The record a new session starts with: no video, paused, at 0. */
  const DefaultPlayerState: PlayerState := PlayerState("", false, 0.0, None)

  /** The fields of `sessions/{sessionId}` the clients read (the creation
      timestamp is left out). */
  datatype SessionDoc = SessionDoc(
    hostId: Option<string>,
    playerState: Option<PlayerState>,
    url: Option<string>)

  /** The writes the clients issue against the session document. */
  datatype SessionWrite =
    | MergeHost(hostId: string)                       // setDoc(ref, {hostId}, {merge: true})
    | CreateSession(hostId: string, state: PlayerState) // setDoc(ref, {createdAt, hostId, playerState})
    | MergePlayerState(state: PlayerState)            // setDoc(ref, {playerState}, {merge: true})
    | MergeUrl(url: string)                           // setDoc(ref, {url, ...}, {merge: true})

  /** The document after `w` lands on `d` (`None`: the document is missing).
      A merge write creates the document when it is missing and otherwise
      replaces only the fields it names; the creation write replaces the whole
      document. */
  function Apply(d: Option<SessionDoc>, w: SessionWrite): (r: SessionDoc)
    ensures w.CreateSession? ==> r == SessionDoc(Some(w.hostId), Some(w.state), None)
    ensures w.MergeHost? ==> r.hostId == Some(w.hostId) && r.playerState == d.GetOr(Empty).playerState && r.url == d.GetOr(Empty).url
    ensures w.MergePlayerState? ==> r.playerState == Some(w.state) && r.hostId == d.GetOr(Empty).hostId && r.url == d.GetOr(Empty).url
    ensures w.MergeUrl? ==> r.url == Some(w.url) && r.hostId == d.GetOr(Empty).hostId && r.playerState == d.GetOr(Empty).playerState
  {
    var base := d.GetOr(Empty);
    match w
    case MergeHost(h) => base.(hostId := Some(h))
    case CreateSession(h, s) => SessionDoc(Some(h), Some(s), None)
    case MergePlayerState(s) => base.(playerState := Some(s))
    case MergeUrl(u) => base.(url := Some(u))
  }

  /** A document with none of the fields: what a merge write starts from when
      the document is missing. */
  const Empty: SessionDoc := SessionDoc(None, None, None)

  /** JavaScript truthiness of an optional string field: present and non-empty. */
  predicate Truthy(s: Option<string>) {
    s.Some? && s.value != ""
  }
}
