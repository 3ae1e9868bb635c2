# ManoWatch coordination rules in Dafny

ManoWatch is a browser watch party built on React hooks and a shared document
store. Every client runs the same hooks. They share one session document that
holds the host id, the shared playback record and the shared-browser URL.
Clients talk to each other through per-peer mailbox collections: offers,
answers and ICE candidates for an audio mesh. This project models the decision
rules inside those hooks and event handlers. Each handler becomes a pure
function from the event and the client's state to the new state and the
writes it issues.

| module | file | models |
|---|---|---|
| `Wrappers` | wrappers.dfy | `Option` |
| `Strings` | strings.dfy | JavaScript `trim` over its white-space set, `startsWith`, and string `<` |
| `Roster` | roster.dfy | `useChat`: message authors deduplicated the way a `Map` keyed by id does it, `participants`, `allParticipants`, `sendMessage` |
| `Mesh` | mesh.dfy | `useWebRTC`: connection map, inbound-stream list, initiator tie-break, roster effect, offer/answer/ICE listeners |
| `Session` | session.dfy | the session document and how merge and create writes change it |
| `WatchParty` | watch_party.dfy | `useWatchParty`: host decision, echo suppression, merge-and-stamp update, `setVideoUrl` |
| `Player` | player.dfy | `VideoPlayer`: the sync effect (URL, play state, 1.5 drift threshold) and the host-gated media-event handlers |
| `Controls` | controls.dfy | `WatchPartyControls`: URL submit guard, play/pause toggle, seek clamp, which controls are enabled |
| `SharedBrowser` | shared_browser.dfy | `useSharedBrowser`: URL normalisation, default page, initializing mask |
| `Chat` | chat.dfy | `Chat`: the send handler with its `@ai` command and page guard, and the displayed roster |

The model's conventions:
- A store write is a value of type `SessionWrite`.
- `Session.Apply` gives the document that subscribers see once the write lands.
- A snapshot is an argument (`None` when the document is missing).
- The assistant's answer is an `Option<string>`: `None` when the call fails.
- An asynchronous chain is one atomic step. For example, `createOffer` followed by `setLocalDescription` takes the connection to `HaveLocalOffer`.
- A connection is a record of its signaling state and whether it has a remote description. Those two decide whether `setRemoteDescription` and `addIceCandidate` succeed, following the W3C WebRTC specification.
- A rejected `await` ends the listener before its `deleteDoc`.
- The `<video>` element's `src` getter is a function parameter `resolve`: the browser's URL parsing and serialisation.

Points about the code that the model makes explicit:
- **Initiator.** The client with the lexicographically *smaller* id sends the offer (src/hooks/useWebRTC.ts:152, `user.id < p.id`).
- **Host claim.** An empty host slot is claimed with a plain merge write (src/hooks/useWatchParty.ts:32-34), not a transaction. So no "at most one host" invariant is stated. `WatchParty.ClaimSettles` and `WatchParty.ExistingHostAdopted` state what one client does.
- **Roster source.** The roster the mesh connects to is the list of chat message authors (src/hooks/useChat.ts:33-43).
- **Stale answers.** An answer for a missing connection is not dropped. The listener throws and never deletes the answer (src/hooks/useWebRTC.ts:97-101; see Findings).
- **Non-host mutators.** `updateRemoteState` (src/hooks/useWatchParty.ts:57-66) does not check the host role. Only the components gate it: `Player.OnMediaEvent` and `Controls.Press`.
- **Chat without a page.** The page component mounts the chat panel without its `browserState` prop (src/components/collab-surf/CollabSurf.tsx:44 and :54). `Chat.MountedWithoutBrowserState` states what follows.

## Model

| member | source | states |
|---|---|---|
| Strings.Trim | src/hooks/useChat.ts:48-52 | the trimmed text has no white space at either end and is no longer than the input; it is empty exactly when the input is all white space (the `!text.trim()` guard) |
| Strings.TrimIsInfix | src/hooks/useChat.ts:52 | trimming removes white space at the two ends and nothing else: the result is a contiguous piece of the input between an all-space prefix and an all-space suffix |
| Strings.TrimIdempotent | src/components/collab-surf/Chat.tsx:42-45 | trimming already trimmed text changes nothing, so the hook's second trim of the handler's text is a no-op |
| Strings.LexLessIrreflexive | src/hooks/useWebRTC.ts:152 | no id is below itself under string `<` |
| Strings.LexLessAsymmetric | src/hooks/useWebRTC.ts:152 | string `<` never holds in both directions |
| Strings.LexLessTotal | src/hooks/useWebRTC.ts:152 | of two different ids one is below the other |
| Strings.LexLessTransitive | src/hooks/useWebRTC.ts:152 | string `<` is transitive, so the tie-break is a total order |
| Strings.ExactlyOneBelow | src/hooks/useWebRTC.ts:152 | of two different ids exactly one is below the other |
| Roster.Authors | src/hooks/useChat.ts:33 | one author per message, in message order |
| Roster.Upsert | src/hooks/useChat.ts:34 | `Map.set` by id: an entry with the same id is overwritten in place, otherwise the user is appended; ids stay distinct |
| Roster.DedupById | src/hooks/useChat.ts:34 | the values of a `Map` keyed by id: each id once, exactly the ids of the input, each holding the id's last occurrence, ordered by first occurrence |
| Roster.WithoutId | src/hooks/useChat.ts:35 | exactly the users whose id differs, so the id is gone and every other id is kept; distinct ids stay distinct |
| Roster.Participants | src/hooks/useChat.ts:33-35 | distinct ids, never the local id, every other author's id present, every entry some message's author |
| Roster.AllParticipantsShape | src/hooks/useChat.ts:41-43 | the combined roster starts with the local id, holds each id once, holds exactly the local id and the participants' ids, and starts with the local user's own record when the participants omit its id |
| Roster.DedupHeadFirst | src/hooks/useChat.ts:42 | deduplication keeps the first entry's id in front |
| Roster.SendMessage | src/hooks/useChat.ts:46-55 | nothing exactly for white-space-only text; otherwise the trimmed text under `{id, name}` of the user |
| Mesh.ExactlyOneInitiator | src/hooks/useWebRTC.ts:151-153 | of two different ids exactly one side initiates; nobody initiates towards itself |
| Mesh.DropPeers | src/hooks/useWebRTC.ts:60 | exactly the stream entries whose peer is not removed survive |
| Mesh.DropPeersKeepsOne | src/hooks/useWebRTC.ts:60 | filtering keeps at most one stream entry per peer |
| Mesh.DropPeersTwice | src/hooks/useWebRTC.ts:165-169 | removing two sets of peers one after the other is removing their union, so the order of the end calls does not matter |
| Mesh.CreatePeerConnection | src/hooks/useWebRTC.ts:173-206 | the id is registered afterwards and mapped to the returned connection; existing entries are untouched; a new id gets a fresh stable connection and adds exactly one entry |
| Mesh.CreateIdempotent | src/hooks/useWebRTC.ts:173-176 | creating the same connection a second time returns it and changes nothing |
| Mesh.OnTrack | src/hooks/useWebRTC.ts:182-189 | a peer's first stream is appended and later ones are ignored; the list keeps one entry per peer |
| Mesh.EndConnection | src/hooks/useWebRTC.ts:57-61 | the peer leaves the map and the stream list; every other connection and stream entry stays |
| Mesh.OnConnectionStateChange | src/hooks/useWebRTC.ts:198-202 | `disconnected`, `failed` and `closed` end the connection exactly as `handleEndConnection` does; any other state changes nothing |
| Mesh.EndAll | src/hooks/useWebRTC.ts:165-169 | bulk removal: the departed peers leave the map and the streams; others keep their connection |
| Mesh.EndDeparted | src/hooks/useWebRTC.ts:165-169 | calling `handleEndConnection` for each departed peer, in any order, gives the bulk removal |
| Mesh.StartOffer | src/hooks/useWebRTC.ts:154-155 | the offered-to connection is in `have-local-offer`; nothing else changes |
| Mesh.TargetsMeaning | src/hooks/useWebRTC.ts:151-152 | a peer is offered to exactly when it is listed, was not connected before the effect, and the tie-break picks the local client |
| Mesh.ConnectNew | src/hooks/useWebRTC.ts:150-162 | the new connections are exactly the targets, each with its offer under way; others are untouched; every target gets an offer, and only one when roster ids are distinct |
| Mesh.RosterEffect | src/hooks/useWebRTC.ts:144-171 | without a local stream nothing happens; otherwise offers go exactly to new roster peers the tie-break assigns, never to self; afterwards the connections are exactly the listed peers that were connected or initiated; departed peers lose connection and streams |
| Mesh.TargetsAreNewPeers | src/hooks/useWebRTC.ts:147-152 | the targets computed from the filtered roster are the other roster ids not yet connected that the local client initiates to |
| Mesh.OneOfferPerPair | src/hooks/useWebRTC.ts:151-153 | two unconnected clients that list each other: exactly one of them sends the pair's offer |
| Mesh.HandleOffer | src/hooks/useWebRTC.ts:74-86 | the sender's connection is reused or created and ends stable with a remote description; the answer goes to the sender's mailbox keyed by the local id; the offer is deleted; nothing else changes |
| Mesh.DuplicateOfferHarmless | src/hooks/useWebRTC.ts:76 | a second delivery of the same offer leaves the mesh as the first left it |
| Mesh.HandleAnswer | src/hooks/useWebRTC.ts:96-101 | applied exactly to an existing connection in `have-local-offer` or `have-remote-pranswer`, which then becomes stable; deleted exactly when the connection exists and is stable or accepts the answer (a missing connection throws, a rejecting one rejects) |
| Mesh.AnswerWithoutConnectionStays | src/hooks/useWebRTC.ts:97-101 | an answer from a peer without connection is neither applied nor deleted |
| Mesh.HandleAnswerGuarded | src/hooks/useWebRTC.ts:96-101 | the guard `pc && pc.signalingState !== 'stable'`: an answer without a connection is skipped and deleted; otherwise as written |
| Mesh.GuardedAgreesWithConnection | src/hooks/useWebRTC.ts:96-101 | the guarded handler and the handler as written agree whenever the connection exists |
| Mesh.HandleIce | src/hooks/useWebRTC.ts:111-116 | the candidate is applied exactly when the sender's connection exists, is open and has a remote description; the document is deleted when there is no connection or the candidate is applied, and stays when `addIceCandidate` rejects |
| Mesh.ValidEmpty | src/hooks/useWebRTC.ts:34-35 | the initial mesh has no self-connection, only reachable connection states (stable with a remote description, or waiting in `have-local-offer`), one stream per peer, and streams only for connected peers |
| Mesh.ValidOnTrack | src/hooks/useWebRTC.ts:182-189 | recording a stream on a live connection keeps that invariant |
| Mesh.ValidEnd | src/hooks/useWebRTC.ts:57-61 | ending a connection, directly or on a state change, keeps the invariant |
| Mesh.ValidRoster | src/hooks/useWebRTC.ts:144-171 | the roster effect keeps the invariant |
| Mesh.ValidMailbox | src/hooks/useWebRTC.ts:71-119 | the three listeners keep the invariant when no offer comes from the local id |
| Mesh.ValidAnswerConsumed | src/hooks/useWebRTC.ts:96-101 | in a valid mesh no connection rejects an answer: as written exactly the answers without a connection stay behind; the guarded listener deletes every answer |
| Mesh.ValidIceOutcome | src/hooks/useWebRTC.ts:111-116 | in a valid mesh a candidate on an existing connection is applied and deleted exactly when the connection is stable |
| Mesh.CandidateBeforeAnswerStays | src/hooks/useWebRTC.ts:111-116 | a candidate from a peer just offered to, arriving before its answer, is rejected and stays in the mailbox |
| Session.Apply | src/hooks/useWatchParty.ts:33-63 | a merge write replaces only the field it names (creating the document if missing); the creation write replaces the whole document |
| WatchParty.OnSessionSnapshot | src/hooks/useWatchParty.ts:27-53 | missing document: host, default record, create write; no (or empty) host id: host and a host merge; otherwise host exactly when the stored id is the own; the stored record is adopted exactly when present and not written by this client |
| WatchParty.Stamp | src/hooks/useWatchParty.ts:61 | every field the partial names is taken from it, every other from the old record, and `lastUpdatedBy` is the writer |
| WatchParty.UpdateRemoteState | src/hooks/useWatchParty.ts:57-66 | no-op without a session; otherwise the local record becomes the stamped merge and exactly that record is written |
| WatchParty.SetVideoUrl | src/hooks/useWatchParty.ts:68-70 | the new URL, paused, at 0, stamped by the writer, and written |
| WatchParty.SetPlayerState | src/hooks/useWatchParty.ts:72-74 | no-op without a session; otherwise the whole record, restamped by the writer, becomes the local record and is the merge write |
| WatchParty.UpdateIdempotent | src/hooks/useWatchParty.ts:61-63 | repeating an update on its own result changes nothing further |
| WatchParty.EchoSuppressed | src/hooks/useWatchParty.ts:40-42 | the snapshot carrying a client's own write leaves its local record untouched |
| WatchParty.OthersAdopt | src/hooks/useWatchParty.ts:40-41 | every other client adopts the written record verbatim |
| WatchParty.VideoUrlReachesOthers | src/hooks/useWatchParty.ts:68-70 | after `setVideoUrl` every other client holds that URL, paused, at 0 |
| WatchParty.ClaimSettles | src/hooks/useWatchParty.ts:32-37 | once a client's host claim lands, its next snapshot keeps it host with no further write |
| WatchParty.EmptyIdClaimRepeats | src/hooks/useWatchParty.ts:32-33 | with an empty user id the stored claim counts as no host, so every snapshot claims again |
| WatchParty.CreationSettles | src/hooks/useWatchParty.ts:43-52 | the creator's next snapshot keeps it host with the default record and no write |
| WatchParty.ExistingHostAdopted | src/hooks/useWatchParty.ts:35-37 | a client that finds another's claim is not host and writes nothing |
| Player.Sync | src/components/collab-surf/VideoPlayer.tsx:23-44 | nothing without an element, and there is none behind the placeholder for an empty URL (lines 25 and 78-87); otherwise `src` is assigned exactly when the getter's value differs from the shared URL, and then reads back as the resolved URL; the play state follows the record; the position jumps to the shared one exactly when it is more than 1.5 away and no seek is in progress |
| Player.SyncConverges | src/components/collab-surf/VideoPlayer.tsx:28-43 | after the effect the source reads back as the shared URL or its resolved form (the URL itself when canonical), the play state is the shared one, and the position is within 1.5 of the shared one |
| Player.SyncIdempotent | src/components/collab-surf/VideoPlayer.tsx:23-44 | a second run on the same record leaves the element as the first left it; after a load it assigns `src` again exactly when the URL is not canonical |
| Player.PaddedUrlReloads | src/components/collab-surf/VideoPlayer.tsx:28-30 | when the URL parser strips leading spaces, the padded URL ` a` is assigned afresh on every run |
| Player.SeekingKeepsPosition | src/components/collab-surf/VideoPlayer.tsx:40-43 | during a local seek the position is never overridden |
| Player.DriftExamples | src/components/collab-surf/VideoPlayer.tsx:40-43 | 2 s of drift is corrected, 0.5 s is not |
| Player.OnMediaEvent | src/components/collab-surf/VideoPlayer.tsx:47-76 | only the host publishes; play/pause publish the play state; a time update republishes exactly when the host is not seeking and has drifted more than 1; a seek start raises the flag, a seek end lowers it on every client and publishes the position on the host |
| Player.HostNeverSelfCorrected | src/components/collab-surf/VideoPlayer.tsx:59-68 | the host's own republished position is never corrected back, because 1 is below 1.5 |
| Player.GuestSeekCycle | src/components/collab-surf/VideoPlayer.tsx:70-76 | on a guest a seek raises and then lowers the flag and publishes nothing |
| Controls.TogglePlayPause | src/components/collab-surf/WatchPartyControls.tsx:34-36 | the play state flips and every other field stays |
| Controls.ToggleTwice | src/components/collab-surf/WatchPartyControls.tsx:34-36 | toggling twice restores the record |
| Controls.SeekBy | src/components/collab-surf/WatchPartyControls.tsx:38-40 | the position moves by the amount, clamped at 0, so it is never negative; other fields stay |
| Controls.ForwardThenRewind | src/components/collab-surf/WatchPartyControls.tsx:57-65 | rewinding 10 undoes forwarding 10 from any non-negative position |
| Controls.RewindClampNotUndone | src/components/collab-surf/WatchPartyControls.tsx:38-40 | from 3 s a rewind clamps to 0, and forwarding then reaches 10, not 3 |
| Controls.SubmitUrl | src/components/collab-surf/WatchPartyControls.tsx:27-32 | the URL is handed on exactly when the input is not blank, and untrimmed |
| Controls.SubmitKeepsPadding | src/components/collab-surf/WatchPartyControls.tsx:29-30 | a padded input is handed on with its padding |
| Controls.View | src/components/collab-surf/WatchPartyControls.tsx:44-77 | URL form and transport only for the host; transport and fullscreen only once a video is named |
| Controls.Press | src/components/collab-surf/WatchPartyControls.tsx:27-77 | a guest's press does nothing except fullscreen; with no video only the URL form acts; the form hands on exactly the non-blank input of a host; play/pause hands on the toggled record, rewind the record moved by -10 and forward by +10 (both clamped at 0) |
| Controls.ViewGatesPress | src/components/collab-surf/WatchPartyControls.tsx:44-77 | a press has an effect exactly when the view renders the control enabled (and the URL input is not blank) |
| Controls.ToggleThroughHook | src/components/collab-surf/WatchPartyControls.tsx:34-36 | through the hook a toggle flips only the play state, stamps the writer and writes that record |
| SharedBrowser.NormalizeUrl | src/hooks/useSharedBrowser.ts:46-49 | the result starts with `http://` or `https://`; it is the trimmed input when that already starts so, otherwise `https://` before it; no padding |
| SharedBrowser.NormalizeIdempotent | src/hooks/useSharedBrowser.ts:46-49 | normalising twice is normalising once |
| SharedBrowser.UpperCaseSchemePrefixed | src/hooks/useSharedBrowser.ts:47 | the scheme test is case-sensitive: `HTTP://a` becomes `https://HTTP://a` |
| SharedBrowser.Navigate | src/hooks/useSharedBrowser.ts:42-55 | nothing exactly without a session or for a blank input; otherwise a merge of the normalised URL |
| SharedBrowser.Subscribe | src/hooks/useSharedBrowser.ts:21-23 | subscribing raises the initializing flag only when there is a session |
| SharedBrowser.Exposed | src/hooks/useSharedBrowser.ts:58 | the blank page while initializing, the adopted URL afterwards |
| SharedBrowser.OnBrowserSnapshot | src/hooks/useSharedBrowser.ts:26-38 | a non-empty stored URL is adopted with no write; otherwise the default page is written and adopted; initialisation ends either way |
| SharedBrowser.NavigateReachesEveryone | src/hooks/useSharedBrowser.ts:52 | once a navigation lands every client shows the normalised URL and writes nothing |
| SharedBrowser.DefaultSettles | src/hooks/useSharedBrowser.ts:27-36 | the snapshot carrying the default write causes no further write |
| SharedBrowser.InitiallyBlank | src/hooks/useSharedBrowser.ts:16-19 | before any snapshot the exposed page is `about:blank` |
| SharedBrowser.CreationDropsUrl | src/hooks/useWatchParty.ts:45-49 | the watch-party creation write drops the stored URL, so the browser hook writes the default again |
| SharedBrowser.UrlWriteInvisibleToWatchParty | src/hooks/useSharedBrowser.ts:52 | a URL merge does not change what the watch-party snapshot handler decides |
| Chat.Question | src/components/collab-surf/Chat.tsx:50 | the text after three characters, trimmed; empty for shorter text |
| Chat.PageUrlGuardIsPrefixTest | src/components/collab-surf/Chat.tsx:67 | the three-part page guard holds exactly when the URL starts with `http` |
| Chat.AiHandling | src/components/collab-surf/Chat.tsx:61-81 | an empty question gets the fixed reply; a missing browser state the error toast; a bad page the fixed refusal; otherwise the assistant is asked about that page and question and its answer is posted, or the error toast shown |
| Chat.HandleSendMessage | src/components/collab-surf/Chat.tsx:40-86 | ignored for blank input or while processing; otherwise post the trimmed text and clear the input, and for a command bracket the reply part with the processing flag |
| Chat.SendOrder | src/components/collab-surf/Chat.tsx:42-49 | nothing happens exactly when ignored; otherwise the user's post comes first, then the clear; the flag goes up and down around the reply part exactly for a command |
| Chat.PostIsHookMessage | src/components/collab-surf/Chat.tsx:45 | the first post is exactly the message the chat hook stores for the trimmed text |
| Chat.AskedIffQuestionAndPage | src/components/collab-surf/Chat.tsx:62-72 | the assistant is asked exactly when the question is non-empty and a browser state with a valid page was given, and then about that page and question |
| Chat.RepliesByAssistant | src/components/collab-surf/Chat.tsx:53-58 | every post after the user's own is authored by the assistant |
| Chat.LongerWordIsCommand | src/components/collab-surf/Chat.tsx:48 | `@aim high` is taken as a command |
| Chat.RefusedWhileInitializing | src/components/collab-surf/Chat.tsx:67-69 | for a panel given the shared browser's state: while the page is still blank every question is refused |
| Chat.MountedWithoutBrowserState | src/components/collab-surf/CollabSurf.tsx:44 | mounted without a browser state, every question ends in the error toast and the assistant is never asked |
| Chat.DisplayedParticipants | src/components/collab-surf/Chat.tsx:30-37 | the roster with the assistant appended exactly when it has posted and is not listed; ids stay distinct |
| Chat.AugmentationRedundant | src/components/collab-surf/Chat.tsx:30-37 | on the roster the chat hook supplies the augmentation never adds anything |

## Left out

- Store I/O: subscriptions, `setDoc`, `addDoc`, `deleteDoc` and `writeBatch` are modelled as events and write values, not as a store.
- The mailbox purge on unmount (src/hooks/useWebRTC.ts:122-139) is batch I/O.
- The local microphone stream (src/hooks/useWebRTC.ts:39-55) is an input: `hasLocalStream`.
- The listener effect's guard (src/hooks/useWebRTC.ts:65) only decides whether the listeners exist, so it is not modelled.
- `onicecandidate` (src/hooks/useWebRTC.ts:191-196) only forwards candidates.
- SDP and ICE contents, `getUserMedia` and track handling are outside the model. A connection is its signaling state plus whether a remote description has been applied.
- Concurrency across clients and async interleaving within one client are not modelled; each handler is one atomic step. No global single-host property is claimed, because the claim is a plain merge write.
- The AI flows (src/ai/flows) are foreign calls. Their answer is an input.
- Rendering-only components, the toolbar, the name form, page wiring, scrolling and `window.getSelection` are outside the model.
- Message ordering by timestamp (src/hooks/useChat.ts:22) is done by the store's query.
- The timestamp fallback to the local clock (src/hooks/useChat.ts:29) reads a clock, so it is left out.
- `createdAt` fields are left out.
- Player.Sync: `play()` may reject. The model records the requested play state, not the element's eventual one.
- Player.Sync: the media load algorithm after a `src` change is not modelled. The `load` flag only records that `src` was assigned.
- Player.Sync: the URL parser behind the `src` getter is a parameter. Only `Player.PaddedUrlReloads` assumes something about it.
- Positions and times are exact reals, not IEEE doubles. The code only compares, adds and takes absolute values.
- Characters are Unicode scalar values, not UTF-16 code units.
- `Chat.IsAiCommand` handles `toLowerCase` only for the three characters it inspects.
- Roster.Participants: the contract does not repeat the `Map` value and order facts. `Roster.DedupById` states those.
- Mesh.StartOffer: the contract does not cover a rejected `createOffer` or `setLocalDescription` (src/hooks/useWebRTC.ts:154-160). There the `.catch` only logs: the connection stays stable with no local description and no offer is written. That failure is outside the model.
- Mesh.RosterEffect: the contract says every peer offered to ends in `have-local-offer`. It does not cover the `.catch` path at src/hooks/useWebRTC.ts:160. On that path the peer keeps a stable connection without an offer. It counts as connected (line 148), so later runs never offer to it again.
- Mesh.HandleOffer: an offer on a connection waiting in `have-local-offer` is modelled as succeeding, as the implicit rollback of the W3C WebRTC specification allows.
- Mesh.HandleOffer: the contract does not say that a throw in `setRemoteDescription` or `createAnswer` leaves the offer undeleted, because those failures are outside the model.
- The error toast when a chat message write fails is not modelled. Only the assistant-call failure and the missing browser state are.
- WatchParty.OnSessionSnapshot: the `setDoc` calls are awaited (src/hooks/useWatchParty.ts:33 and :45). A rejected write skips `setIsHost` and the record adoption after it. The model assumes every write succeeds.
- Chat.AiHandling: the panel is mounted without a browser state, so `browserState.url` throws. `None` as the page models this. `Chat.RefusedWhileInitializing` is about a panel that is given the shared browser's state, which the page component does not do.

## Findings

| source | as written | input that shows it | evidently intended | confidence | as-written member | corrected member |
|---|---|---|---|---|---|---|
| src/hooks/useWebRTC.ts:97-101 | `pc?.signalingState !== 'stable'` is true when `pc` is undefined, so `pc.setRemoteDescription` is called on `undefined`, throws, and `deleteDoc` is never reached | an answer document whose `from` has no entry in the connection map (e.g. the connection was ended before the answer arrived) | the guard `pc && pc.signalingState !== 'stable'`: skip the answer when there is no connection and delete its document | high; not executed | Mesh.AnswerWithoutConnectionStays | Mesh.ValidAnswerConsumed |
| src/components/collab-surf/CollabSurf.tsx:44 | `<Chat user={user} sessionId={sessionId} />` (also line 54) passes no `browserState`, so `browserState.url` at Chat.tsx:67 throws inside the `try` | any `@ai` command with a non-empty question, such as `@ai what is this page?` | pass the shared browser's state, so that the page guard and the assistant see the current URL | medium (a type checker that rejects the missing prop stops the build instead); not executed | Chat.MountedWithoutBrowserState | Chat.AskedIffQuestionAndPage |

`Mesh.HandleAnswer` models the listener as written. `Mesh.HandleAnswerGuarded`
is the corrected listener. `Mesh.GuardedAgreesWithConnection` proves that it
changes nothing when the connection exists. `Mesh.ValidAnswerConsumed` proves
that in a valid mesh it deletes every answer. `Mesh.ValidMailbox` proves that
both keep the mesh invariant.
