/**
 The watch-party control bar (src/components/collab-surf/WatchPartyControls.tsx):
 the host-only URL form and transport buttons and the records they hand to the
 watch-party hook.
 */
module Controls {
  import opened Wrappers
  import opened Strings
  import opened Session
  import WatchParty

  /** The rewind and forward buttons move the position by these amounts. */
  const RewindStep: real := -10.0
  const ForwardStep: real := 10.0

  /** The play/pause button: the same record with the play state flipped. */
  function TogglePlayPause(s: PlayerState): (r: PlayerState)
    ensures r.isPlaying != s.isPlaying
    ensures r.videoUrl == s.videoUrl && r.currentTime == s.currentTime && r.lastUpdatedBy == s.lastUpdatedBy
  {
    s.(isPlaying := !s.isPlaying)
  }

  lemma ToggleTwice(s: PlayerState)
    ensures TogglePlayPause(TogglePlayPause(s)) == s
  {
  }

  function Max(a: real, b: real): real {
    if a < b then b else a
  }

  /** `handleSeek(amount)`: the record moved by `amount`, clamped at 0. */
  function SeekBy(s: PlayerState, amount: real): (r: PlayerState)
    ensures r.currentTime >= 0.0
    ensures s.currentTime + amount >= 0.0 ==> r.currentTime == s.currentTime + amount
    ensures s.currentTime + amount < 0.0 ==> r.currentTime == 0.0
    ensures r.videoUrl == s.videoUrl && r.isPlaying == s.isPlaying && r.lastUpdatedBy == s.lastUpdatedBy
  {
    s.(currentTime := Max(0.0, s.currentTime + amount))
  }

  /** Rewinding undoes forwarding from any non-negative position. */
  lemma ForwardThenRewind(s: PlayerState)
    requires s.currentTime >= 0.0
    ensures SeekBy(SeekBy(s, ForwardStep), RewindStep) == s
  {
  }

  /** Near the start the clamp loses the position: forwarding does not undo
      a rewind from 3 s, which ends at 10 s. */
  lemma RewindClampNotUndone(s: PlayerState)
    requires s.currentTime == 3.0
    ensures SeekBy(s, RewindStep).currentTime == 0.0
    ensures SeekBy(SeekBy(s, RewindStep), ForwardStep).currentTime == 10.0
  {
  }

  /** The URL form: the raw input is handed on exactly when it is not blank. */
  function SubmitUrl(input: string): (r: Option<string>)
    ensures r.Some? <==> !AllSpace(input)
    ensures r.Some? ==> r.value == input
  {
    if Trim(input) != "" then Some(input) else None
  }

  /** Submitting a padded URL loads it padded: the input is not trimmed. */
  lemma SubmitKeepsPadding()
    ensures SubmitUrl(" a") == Some(" a")
  {
    assert " a"[1] == 'a' && !IsJsSpace('a');
  }

  /** Which controls are offered: the URL form and transport buttons only to
      the host, and transport and fullscreen only once a video is named. */
  datatype ControlsView = ControlsView(hostControls: bool, transportEnabled: bool, fullscreenEnabled: bool)

  function View(isHost: bool, s: PlayerState): (r: ControlsView)
    ensures r.hostControls <==> isHost
    ensures r.transportEnabled <==> isHost && s.videoUrl != ""
    ensures r.fullscreenEnabled <==> s.videoUrl != ""
  {
    ControlsView(isHost, isHost && s.videoUrl != "", s.videoUrl != "")
  }

  /** The controls a user can press. */
  datatype Control = LoadUrl(input: string) | Rewind | PlayPause | Forward | Fullscreen

  /** What a press hands to the component's callbacks. */
  datatype Call = SetVideoUrlCall(url: string) | SetPlayerStateCall(state: PlayerState) | FullscreenCall

  /** Whether a view renders a control enabled. */
  predicate Offered(v: ControlsView, c: Control) {
    match c
    case LoadUrl(_) => v.hostControls
    case Fullscreen => v.fullscreenEnabled
    case _ => v.transportEnabled
  }

  /** Pressing a control: nothing when the control is not rendered or is
      disabled, or when the URL form holds only white space; otherwise the
      callback its handler invokes. */
  function Press(isHost: bool, s: PlayerState, c: Control): (r: Option<Call>)
    ensures !isHost && !c.Fullscreen? ==> r.None?
    ensures s.videoUrl == "" && !c.LoadUrl? ==> r.None?
    ensures c.LoadUrl? ==> (r.Some? <==> isHost && !AllSpace(c.input))
    ensures c.LoadUrl? && r.Some? ==> r.value == SetVideoUrlCall(c.input)
    ensures c.Fullscreen? ==> (r.Some? <==> s.videoUrl != "") && (r.Some? ==> r.value == FullscreenCall)
    ensures c.PlayPause? && r.Some? ==> r.value == SetPlayerStateCall(TogglePlayPause(s))
    ensures c.Rewind? && r.Some? ==> r.value == SetPlayerStateCall(SeekBy(s, RewindStep))
    ensures c.Forward? && r.Some? ==> r.value == SetPlayerStateCall(SeekBy(s, ForwardStep))
    ensures (c.Rewind? || c.Forward?) && r.Some? ==>
              r.value.SetPlayerStateCall? && r.value.state.currentTime >= 0.0
              && r.value.state.videoUrl == s.videoUrl && r.value.state.isPlaying == s.isPlaying
  {
    match c
    case LoadUrl(input) =>
      if !isHost then None
      else
        var url := SubmitUrl(input);
        if url.Some? then Some(SetVideoUrlCall(url.value)) else None
    case Fullscreen =>
      if s.videoUrl != "" then Some(FullscreenCall) else None
    case _ =>
      if !isHost || s.videoUrl == "" then None
      else if c.PlayPause? then Some(SetPlayerStateCall(TogglePlayPause(s)))
      else if c.Rewind? then Some(SetPlayerStateCall(SeekBy(s, RewindStep)))
      else Some(SetPlayerStateCall(SeekBy(s, ForwardStep)))
  }

  /** The view and the handlers agree: a press has an effect exactly when the
      view offers the control (and, for the URL form, the input is not
      blank). */
  lemma ViewGatesPress(isHost: bool, s: PlayerState, c: Control)
    ensures Press(isHost, s, c).Some? <==> Offered(View(isHost, s), c) && (c.LoadUrl? ==> !AllSpace(c.input))
  {
  }

  /** Through the watch-party hook a toggle flips only the play state and
      stamps the record with the host's id. */
  lemma ToggleThroughHook(sessionId: string, userId: string, s: PlayerState)
    requires sessionId != ""
    ensures var u := WatchParty.SetPlayerState(sessionId, userId, s, TogglePlayPause(s));
      && u.local.isPlaying == !s.isPlaying
      && u.local.videoUrl == s.videoUrl && u.local.currentTime == s.currentTime
      && u.local.lastUpdatedBy == Some(userId)
      && u.write == Some(MergePlayerState(u.local))
  {
  }
}
