/**
 The watch-party hook (src/hooks/useWatchParty.ts): the host decision and
 echo-suppressed adoption of the shared playback record on every snapshot of
 the session document, and the merge-and-stamp optimistic update behind both
 mutators.
 */
module WatchParty {
  import opened Wrappers
  import opened Session

  /** A `Partial<PlayerState>`: the fields a mutator sets. */
  datatype Partial = Partial(videoUrl: Option<string>, isPlaying: Option<bool>, currentTime: Option<real>)

  /** A whole record passed where a partial one is expected (its
      `lastUpdatedBy`, if any, is overwritten by the stamp anyway). */
  function Whole(s: PlayerState): Partial {
    Partial(Some(s.videoUrl), Some(s.isPlaying), Some(s.currentTime))
  }

  /** What one snapshot makes the client do: the value passed to `setIsHost`,
      the local playback record afterwards, and the write it issues, if any. */
  datatype SnapshotOutcome = SnapshotOutcome(isHost: bool, local: PlayerState, write: Option<SessionWrite>)

  /** The snapshot listener. A missing document is created with the local
      user as host and the default record. An existing document without a
      host (absent or empty `hostId`) gets the local user merged in as host;
      otherwise the client is host exactly when the stored id is its own. A
      stored record replaces the local one unless the local user wrote it. */
  function OnSessionSnapshot(userId: string, snap: Option<SessionDoc>, local: PlayerState): (r: SnapshotOutcome)
    ensures snap.None? ==>
              r.isHost && r.local == DefaultPlayerState && r.write == Some(CreateSession(userId, DefaultPlayerState))
    ensures snap.Some? && !Truthy(snap.value.hostId) ==> r.isHost && r.write == Some(MergeHost(userId))
    ensures snap.Some? && Truthy(snap.value.hostId) ==> r.isHost == (snap.value.hostId.value == userId) && r.write.None?
    ensures snap.Some? && snap.value.playerState.Some? && snap.value.playerState.value.lastUpdatedBy != Some(userId) ==>
              r.local == snap.value.playerState.value
    ensures snap.Some? && (snap.value.playerState.None? || snap.value.playerState.value.lastUpdatedBy == Some(userId)) ==>
              r.local == local
  {
    match snap
    case None => SnapshotOutcome(true, DefaultPlayerState, Some(CreateSession(userId, DefaultPlayerState)))
    case Some(d) =>
      var isHost := if !Truthy(d.hostId) then true else d.hostId.value == userId;
      var write := if !Truthy(d.hostId) then Some(MergeHost(userId)) else None;
      var local' :=
        if d.playerState.Some? && d.playerState.value.lastUpdatedBy != Some(userId) then d.playerState.value
        else local;
      SnapshotOutcome(isHost, local', write)
  }

  /** The record `{...playerState, ...newState, lastUpdatedBy: userId}`. */
  function Stamp(local: PlayerState, p: Partial, userId: string): (s: PlayerState)
    ensures s.lastUpdatedBy == Some(userId)
    ensures p.videoUrl.Some? ==> s.videoUrl == p.videoUrl.value
    ensures p.isPlaying.Some? ==> s.isPlaying == p.isPlaying.value
    ensures p.currentTime.Some? ==> s.currentTime == p.currentTime.value
    ensures p.videoUrl.None? ==> s.videoUrl == local.videoUrl
    ensures p.isPlaying.None? ==> s.isPlaying == local.isPlaying
    ensures p.currentTime.None? ==> s.currentTime == local.currentTime
  {
    PlayerState(p.videoUrl.GetOr(local.videoUrl), p.isPlaying.GetOr(local.isPlaying),
                p.currentTime.GetOr(local.currentTime), Some(userId))
  }

  /** The local record after a mutator call and the write it issues. */
  datatype Update = Update(local: PlayerState, write: Option<SessionWrite>)

  /** `updateRemoteState`: without a session nothing happens; otherwise the
      stamped merge becomes the local record at once and is merge-written as
      the document's `playerState`. */
  function UpdateRemoteState(sessionId: string, userId: string, local: PlayerState, p: Partial): (r: Update)
    ensures sessionId == "" ==> r == Update(local, None)
    ensures sessionId != "" ==> r.write == Some(MergePlayerState(r.local)) && r.local == Stamp(local, p, userId)
  {
    if sessionId == "" then Update(local, None)
    else
      var s := Stamp(local, p, userId);
      Update(s, Some(MergePlayerState(s)))
  }

  /** `setVideoUrl(url)`: the new source, paused, from the start. */
  function SetVideoUrl(sessionId: string, userId: string, local: PlayerState, url: string): (r: Update)
    ensures sessionId == "" ==> r == Update(local, None)
    ensures sessionId != "" ==>
              && r.local == PlayerState(url, false, 0.0, Some(userId))
              && r.write == Some(MergePlayerState(r.local))
  {
    UpdateRemoteState(sessionId, userId, local, Partial(Some(url), Some(false), Some(0.0)))
  }

  /** `setPlayerState(newState)`: a whole record through the same update. */
  function SetPlayerState(sessionId: string, userId: string, local: PlayerState, s: PlayerState): (r: Update)
    ensures sessionId != "" ==> r.local == s.(lastUpdatedBy := Some(userId))
    ensures sessionId != "" ==> r.write == Some(MergePlayerState(r.local))
    ensures sessionId == "" ==> r == Update(local, None)
  {
    UpdateRemoteState(sessionId, userId, local, Whole(s))
  }

  /** Repeating an update changes nothing further. */
  lemma UpdateIdempotent(sessionId: string, userId: string, local: PlayerState, p: Partial)
    ensures var once := UpdateRemoteState(sessionId, userId, local, p);
      UpdateRemoteState(sessionId, userId, once.local, p) == once
  {
  }

  /** Echo safety: once the client's own write lands, the snapshot carrying
      it leaves the local record (whatever it is by then) untouched. */
  lemma EchoSuppressed(sessionId: string, userId: string, local: PlayerState, p: Partial,
                       d: Option<SessionDoc>, later: PlayerState)
    requires sessionId != ""
    ensures var u := UpdateRemoteState(sessionId, userId, local, p);
      OnSessionSnapshot(userId, Some(Apply(d, u.write.value)), later).local == later
  {
  }

  /** Every other client adopts the written record verbatim. */
  lemma OthersAdopt(sessionId: string, writer: string, reader: string, local: PlayerState, p: Partial,
                    d: Option<SessionDoc>, readerLocal: PlayerState)
    requires sessionId != "" && reader != writer
    ensures var u := UpdateRemoteState(sessionId, writer, local, p);
      OnSessionSnapshot(reader, Some(Apply(d, u.write.value)), readerLocal).local == u.local
  {
  }

  /** A host that loads a video: every other client ends up with that source,
      paused, at position 0. */
  lemma VideoUrlReachesOthers(sessionId: string, host: string, other: string, hostLocal: PlayerState,
                              url: string, d: SessionDoc, otherLocal: PlayerState)
    requires sessionId != "" && host != other
    ensures var u := SetVideoUrl(sessionId, host, hostLocal, url);
      var seen := OnSessionSnapshot(other, Some(Apply(Some(d), u.write.value)), otherLocal).local;
      seen.videoUrl == url && !seen.isPlaying && seen.currentTime == 0.0
  {
    OthersAdopt(sessionId, host, other, hostLocal, Partial(Some(url), Some(false), Some(0.0)), Some(d), otherLocal);
  }

  /** After a client's host claim lands, its next snapshot keeps it host,
      issues no further write and leaves its record alone. */
  lemma ClaimSettles(userId: string, d: SessionDoc, local: PlayerState)
    requires userId != "" && !Truthy(d.hostId)
    ensures var first := OnSessionSnapshot(userId, Some(d), local);
      var next := OnSessionSnapshot(userId, Some(Apply(Some(d), first.write.value)), first.local);
      next.isHost && next.write.None? && next.local == first.local
  {
  }

  /** With an empty user id the claim never settles: the stored empty id
      counts as no host, so every snapshot claims again. */
  lemma EmptyIdClaimRepeats(d: SessionDoc, local: PlayerState)
    requires !Truthy(d.hostId)
    ensures var first := OnSessionSnapshot("", Some(d), local);
      OnSessionSnapshot("", Some(Apply(Some(d), first.write.value)), first.local).write == Some(MergeHost(""))
  {
  }

  /** The first client of a session creates it; the snapshot of the created
      document keeps that client host with the default record and no write. */
  lemma CreationSettles(userId: string, local: PlayerState)
    requires userId != ""
    ensures var first := OnSessionSnapshot(userId, None, local);
      var next := OnSessionSnapshot(userId, Some(Apply(None, first.write.value)), first.local);
      next.isHost && next.write.None? && next.local == DefaultPlayerState
  {
  }

  /** A client that finds another client's claim in place never contests it. */
  lemma ExistingHostAdopted(userId: string, d: SessionDoc, local: PlayerState)
    requires Truthy(d.hostId) && d.hostId.value != userId
    ensures !OnSessionSnapshot(userId, Some(d), local).isHost
    ensures OnSessionSnapshot(userId, Some(d), local).write.None?
  {
  }
}
