/**
 The shared-browser hook (src/hooks/useSharedBrowser.ts): the page URL kept in
 the `url` field of the session document, its default on first use, the blank
 page shown while the first snapshot is awaited, and the URL normalisation of
 `navigate`.
 */
module SharedBrowser {
  import opened Wrappers
  import opened Strings
  import opened Session
  import WatchParty

  /** The page a session starts on. */
  const DefaultUrl: string := "https://www.google.com/search?q=popular+free+movie+streaming+sites"

  /** What the hook shows before the first snapshot. */
  const BlankUrl: string := "about:blank"

  const HttpPrefix: string := "http://"
  const HttpsPrefix: string := "https://"

  /** The trimmed input, with `https://` put in front unless it already starts
      with `http://` or `https://` (case-sensitively). */
  function NormalizeUrl(input: string): (r: string)
    ensures StartsWith(r, HttpPrefix) || StartsWith(r, HttpsPrefix)
    ensures StartsWith(Trim(input), HttpPrefix) || StartsWith(Trim(input), HttpsPrefix) ==> r == Trim(input)
    ensures !(StartsWith(Trim(input), HttpPrefix) || StartsWith(Trim(input), HttpsPrefix)) ==> r == HttpsPrefix + Trim(input)
    ensures Unpadded(r)
  {
    var t := Trim(input);
    if StartsWith(t, HttpPrefix) || StartsWith(t, HttpsPrefix) then t
    else
      var r := HttpsPrefix + t;
      StartsWithConcat(HttpsPrefix, t);
      assert r[0] == 'h';
      assert t != [] ==> r[|r| - 1] == t[|t| - 1];
      r
  }

  /** Normalising an already normalised URL changes nothing. */
  lemma NormalizeIdempotent(input: string)
    ensures NormalizeUrl(NormalizeUrl(input)) == NormalizeUrl(input)
  {
    TrimUnpadded(NormalizeUrl(input));
  }

  /** The scheme test is case-sensitive: an upper-case scheme gets a second one. */
  lemma UpperCaseSchemePrefixed()
    ensures NormalizeUrl("HTTP://a") == "https://HTTP://a"
  {
    var s := "HTTP://a";
    assert Unpadded(s) by { assert s[0] == 'H' && s[|s| - 1] == 'a'; }
    TrimUnpadded(s);
    assert s[..|HttpPrefix|] != HttpPrefix by { assert s[0] != HttpPrefix[0]; }
    assert s[..|HttpsPrefix|] != HttpsPrefix by { assert s[0] != HttpsPrefix[0]; }
  }

  /** `navigate(url)`: nothing without a session or for a blank input;
      otherwise the normalised URL is merge-written to the session. */
  function Navigate(sessionId: string, input: string): (r: Option<SessionWrite>)
    ensures r.None? <==> sessionId == "" || AllSpace(input)
    ensures r.Some? ==> r == Some(MergeUrl(NormalizeUrl(input)))
  {
    if sessionId == "" || Trim(input) == "" then None
    else Some(MergeUrl(NormalizeUrl(input)))
  }

  /** The hook's state: the adopted URL and whether the first snapshot is
      still awaited. */
  datatype BrowserHook = BrowserHook(url: string, initializing: bool)

  const InitialBrowser: BrowserHook := BrowserHook(BlankUrl, true)

  /** The subscription effect raises the initialising flag, but only when
      there is a session to subscribe to. */
  function Subscribe(sessionId: string, h: BrowserHook): (r: BrowserHook)
    ensures sessionId == "" ==> r == h
    ensures sessionId != "" ==> r.initializing && r.url == h.url
  {
    if sessionId == "" then h else h.(initializing := true)
  }

  /** The URL the hook exposes: the blank page while initialising. */
  function Exposed(h: BrowserHook): (url: string)
    ensures h.initializing ==> url == BlankUrl
    ensures !h.initializing ==> url == h.url
  {
    if h.initializing then BlankUrl else h.url
  }

  /** The snapshot listener: a document with a non-empty `url` is adopted;
      otherwise the default page is merge-written and adopted at once. Either
      way initialisation is over. */
  function OnBrowserSnapshot(snap: Option<SessionDoc>, h: BrowserHook): (r: (BrowserHook, Option<SessionWrite>))
    ensures !r.0.initializing
    ensures snap.Some? && Truthy(snap.value.url) ==> r.0.url == snap.value.url.value && r.1.None?
    ensures !(snap.Some? && Truthy(snap.value.url)) ==> r.0.url == DefaultUrl && r.1 == Some(MergeUrl(DefaultUrl))
  {
    if snap.Some? && Truthy(snap.value.url) then (BrowserHook(snap.value.url.value, false), None)
    else (BrowserHook(DefaultUrl, false), Some(MergeUrl(DefaultUrl)))
  }

  /** Every client shows a navigated page once its write lands. */
  lemma NavigateReachesEveryone(sessionId: string, input: string, d: Option<SessionDoc>, h: BrowserHook)
    requires Navigate(sessionId, input).Some?
    ensures var after := OnBrowserSnapshot(Some(Apply(d, Navigate(sessionId, input).value)), h);
      Exposed(after.0) == NormalizeUrl(input) && after.1.None?
  {
  }

  /** The default write settles: the snapshot carrying it writes nothing more. */
  lemma DefaultSettles(d: Option<SessionDoc>, h: BrowserHook)
    ensures var first := OnBrowserSnapshot(d, h);
      first.1.Some? ==>
        var next := OnBrowserSnapshot(Some(Apply(d, first.1.value)), first.0);
        next.0 == first.0 && next.1.None?
  {
  }

  /** Before any snapshot the exposed page is blank. */
  lemma InitiallyBlank(sessionId: string)
    ensures Exposed(Subscribe(sessionId, InitialBrowser)) == BlankUrl
  {
  }

  /** The watch-party hook's creation write replaces the whole document and
      so drops a URL already stored; the browser then writes the default page
      again. */
  lemma CreationDropsUrl(d: Option<SessionDoc>, userId: string, state: PlayerState, h: BrowserHook)
    ensures OnBrowserSnapshot(Some(Apply(d, CreateSession(userId, state))), h).1 == Some(MergeUrl(DefaultUrl))
  {
  }

  /** A URL write is invisible to the watch-party hook: its snapshot of the
      document decides exactly as before the write. */
  lemma UrlWriteInvisibleToWatchParty(d: SessionDoc, url: string, userId: string, local: PlayerState)
    ensures WatchParty.OnSessionSnapshot(userId, Some(Apply(Some(d), MergeUrl(url))), local)
         == WatchParty.OnSessionSnapshot(userId, Some(d), local)
  {
    assert Apply(Some(d), MergeUrl(url)) == d.(url := Some(url));
  }
}
