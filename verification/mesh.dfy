/**
 The audio mesh of src/hooks/useWebRTC.ts, with the media layer abstracted
 away: the client's map from peer id to connection, its list of inbound
 streams, the roster effect that opens and closes connections, and the guards
 on the three mailbox listeners (offers, answers, ICE candidates).

 A connection is a record of its signaling state and whether a remote
 description has been applied to it; an asynchronous chain such as
 createOffer-then-setLocalDescription is taken as one atomic step that
 succeeds.
 */
module Mesh {
  import opened Strings
  import opened Roster

  datatype SignalingState =
    | Stable | HaveLocalOffer | HaveRemoteOffer | HaveLocalPranswer | HaveRemotePranswer | Closed

  /** A connection's signaling state and whether a remote description has
      been applied to it (an ICE candidate can only be added once one has). */
  datatype Connection = Connection(signalingState: SignalingState, hasRemoteDescription: bool)

  /** The `connectionState` values a connection reports on change. */
  datatype PeerConnectionState = New | Connecting | Connected | Disconnected | Failed | ClosedState

  /** Opaque handle of an inbound media stream. */
  type StreamId = string

  datatype RemoteStream = RemoteStream(peerId: string, stream: StreamId)

  /** The client's mesh: `peerConnections.current` and `remoteStreams`. */
  datatype Mesh = Mesh(connections: map<string, Connection>, remoteStreams: seq<RemoteStream>)

  /** A freshly constructed `RTCPeerConnection` is in the stable state, with
      no remote description yet. */
  const Fresh: Connection := Connection(Stable, false)

  const EmptyMesh: Mesh := Mesh(map[], [])

  /** The answer document the offer listener writes:
      `sessions/{s}/peers/{to}/answers/{key}` holding `{from, answer}`. */
  datatype AnswerDoc = AnswerDoc(to: string, key: string, from: string)

  /** The initiator tie-break of the roster effect: the local client offers
      to a peer exactly when its own id is below the peer's. */
  predicate Initiates(self: string, peer: string) {
    LexLess(self, peer)
  }

  /** Of two different clients exactly one initiates towards the other, so a
      pair never exchanges two offers; a client never initiates towards itself. */
  lemma ExactlyOneInitiator(a: string, b: string)
    ensures a != b ==> Initiates(a, b) != Initiates(b, a)
    ensures !Initiates(a, a)
  {
    if a != b { ExactlyOneBelow(a, b); }
    LexLessIrreflexive(a);
  }

  // ---------------------------------------------------------------- streams

  /** Some entry of the stream list belongs to `peerId`. */
  predicate HasStreamFor(streams: seq<RemoteStream>, peerId: string) {
    exists i :: 0 <= i < |streams| && streams[i].peerId == peerId
  }

  /** At most one stream entry per peer id. */
  predicate OneStreamPerPeer(streams: seq<RemoteStream>) {
    forall i, j :: 0 <= i < j < |streams| ==> streams[i].peerId != streams[j].peerId
  }

  /** The stream list without the entries of the peers in `gone`, in order. */
  function DropPeers(streams: seq<RemoteStream>, gone: set<string>): (r: seq<RemoteStream>)
    ensures forall s :: s in r <==> s in streams && s.peerId !in gone
    ensures |r| <= |streams|
  {
    if streams == [] then []
    else if streams[0].peerId in gone then DropPeers(streams[1..], gone)
    else [streams[0]] + DropPeers(streams[1..], gone)
  }

  /** Dropping peers keeps at most one stream per peer. */
  lemma {:induction false} DropPeersKeepsOne(streams: seq<RemoteStream>, gone: set<string>)
    ensures OneStreamPerPeer(streams) ==> OneStreamPerPeer(DropPeers(streams, gone))
  {
    if streams != [] && OneStreamPerPeer(streams) {
      var s, tail := streams[0], streams[1..];
      var rest := DropPeers(tail, gone);
      assert streams == [s] + tail;
      OneStreamCons(s, tail);
      DropPeersKeepsOne(tail, gone);
      if s.peerId !in gone {
        OneStreamCons(s, rest);
      }
    }
  }

  /** A list with one stream per peer is a head whose peer the tail does not
      mention, followed by such a list. */
  lemma OneStreamCons(s: RemoteStream, rest: seq<RemoteStream>)
    ensures OneStreamPerPeer([s] + rest) <==> OneStreamPerPeer(rest) && !HasStreamFor(rest, s.peerId)
  {
    var ss := [s] + rest;
    if OneStreamPerPeer(ss) {
      forall i | 0 <= i < |rest| ensures rest[i].peerId != s.peerId {
        assert ss[0] == s && rest[i] == ss[i + 1];
      }
      forall i, j | 0 <= i < j < |rest| ensures rest[i].peerId != rest[j].peerId {
        assert rest[i] == ss[i + 1] && rest[j] == ss[j + 1];
      }
    }
    if OneStreamPerPeer(rest) && !HasStreamFor(rest, s.peerId) {
      forall i, j | 0 <= i < j < |ss| ensures ss[i].peerId != ss[j].peerId {
        if i == 0 {
          assert ss[j] == rest[j - 1];
        } else {
          assert ss[i] == rest[i - 1] && ss[j] == rest[j - 1];
        }
      }
    }
  }

  lemma {:induction false} DropPeersTwice(streams: seq<RemoteStream>, a: set<string>, b: set<string>)
    ensures DropPeers(DropPeers(streams, a), b) == DropPeers(streams, a + b)
  {
    if streams != [] {
      DropPeersTwice(streams[1..], a, b);
      var s := streams[0];
      if s.peerId !in a {
        assert DropPeers(streams, a) == [s] + DropPeers(streams[1..], a);
        assert DropPeers(streams, a)[1..] == DropPeers(streams[1..], a);
      }
    }
  }

  lemma {:induction false} DropNothing(streams: seq<RemoteStream>)
    ensures DropPeers(streams, {}) == streams
  {
    if streams != [] {
      DropNothing(streams[1..]);
      assert streams == [streams[0]] + streams[1..];
    }
  }

  // ------------------------------------------------------------ connections

  /** `createPeerConnection(peerId)`: hands back the existing connection when
      there is one, otherwise registers a fresh one. */
  function CreatePeerConnection(m: Mesh, peerId: string): (r: (Mesh, Connection))
    ensures r.0.connections.Keys == m.connections.Keys + {peerId}
    ensures peerId in r.0.connections && r.0.connections[peerId] == r.1
    ensures forall q :: q in m.connections ==> r.0.connections[q] == m.connections[q]
    ensures peerId !in m.connections ==> r.1 == Fresh && |r.0.connections| == |m.connections| + 1
    ensures r.0.remoteStreams == m.remoteStreams
  {
    if peerId in m.connections then (m, m.connections[peerId])
    else (m.(connections := m.connections[peerId := Fresh]), Fresh)
  }

  /** Creating the same connection twice is creating it once. */
  lemma CreateIdempotent(m: Mesh, peerId: string)
    ensures var once := CreatePeerConnection(m, peerId);
      CreatePeerConnection(once.0, peerId) == once
  {
  }

  /** `pc.ontrack`: record the peer's first inbound stream; later ones for the
      same peer are ignored. */
  function OnTrack(m: Mesh, peerId: string, stream: StreamId): (r: Mesh)
    ensures r.connections == m.connections
    ensures HasStreamFor(r.remoteStreams, peerId)
    ensures HasStreamFor(m.remoteStreams, peerId) ==> r == m
    ensures !HasStreamFor(m.remoteStreams, peerId) ==>
              r.remoteStreams == m.remoteStreams + [RemoteStream(peerId, stream)]
    ensures OneStreamPerPeer(m.remoteStreams) ==> OneStreamPerPeer(r.remoteStreams)
  {
    if HasStreamFor(m.remoteStreams, peerId) then m
    else
      var r := m.(remoteStreams := m.remoteStreams + [RemoteStream(peerId, stream)]);
      assert r.remoteStreams[|m.remoteStreams|].peerId == peerId;
      r
  }

  /** `handleEndConnection(peerId)`: forget the connection and the peer's
      streams; every other entry stays as it was. */
  function EndConnection(m: Mesh, peerId: string): (r: Mesh)
    ensures r.connections.Keys == m.connections.Keys - {peerId}
    ensures forall q :: q in r.connections ==> r.connections[q] == m.connections[q]
    ensures !HasStreamFor(r.remoteStreams, peerId)
    ensures forall s :: s in r.remoteStreams <==> s in m.remoteStreams && s.peerId != peerId
    ensures OneStreamPerPeer(m.remoteStreams) ==> OneStreamPerPeer(r.remoteStreams)
  {
    var r := Mesh(m.connections - {peerId}, DropPeers(m.remoteStreams, {peerId}));
    DropPeersKeepsOne(m.remoteStreams, {peerId});
    assert !HasStreamFor(r.remoteStreams, peerId) by {
      forall i | 0 <= i < |r.remoteStreams| ensures r.remoteStreams[i].peerId != peerId {
        assert r.remoteStreams[i] in r.remoteStreams;
      }
    }
    r
  }

  /** `onconnectionstatechange`: a connection that reports disconnected,
      closed or failed is ended; other reports change nothing. */
  function OnConnectionStateChange(m: Mesh, peerId: string, state: PeerConnectionState): (r: Mesh)
    ensures state in {Disconnected, Failed, ClosedState} ==> peerId !in r.connections && !HasStreamFor(r.remoteStreams, peerId)
    ensures state in {Disconnected, Failed, ClosedState} ==> r == EndConnection(m, peerId)
    ensures state !in {Disconnected, Failed, ClosedState} ==> r == m
  {
    if state == Disconnected || state == ClosedState || state == Failed then EndConnection(m, peerId) else m
  }

  /** Bulk removal of a set of peers: the reference the roster effect's
      sequence of `handleEndConnection` calls is checked against. */
  function EndAll(m: Mesh, gone: set<string>): (r: Mesh)
    ensures r.connections.Keys == m.connections.Keys - gone
    ensures forall q :: q in r.connections ==> r.connections[q] == m.connections[q]
    ensures forall q :: q in gone ==> !HasStreamFor(r.remoteStreams, q)
  {
    var r := Mesh(map q | q in m.connections && q !in gone :: m.connections[q], DropPeers(m.remoteStreams, gone));
    forall q | q in gone ensures !HasStreamFor(r.remoteStreams, q) {
      forall i | 0 <= i < |r.remoteStreams| ensures r.remoteStreams[i].peerId != q {
        assert r.remoteStreams[i] in r.remoteStreams;
      }
    }
    r
  }

  /** The disconnect loop of the roster effect: `handleEndConnection` for
      each departed peer, one after the other, in any order. */
  method EndDeparted(m: Mesh, departed: set<string>) returns (r: Mesh)
    ensures r == EndAll(m, departed)
  {
    r := m;
    var todo := departed;
    ghost var done: set<string> := {};
    DropNothing(m.remoteStreams);
    while todo != {}
      invariant done + todo == departed
      invariant EndedOnly(m, r, done)
      decreases todo
    {
      var q :| q in todo;
      EndStep(m, r, done, q);
      r := EndConnection(r, q);
      done := done + {q};
      todo := todo - {q};
    }
    EndedOnlyIsEndAll(m, r, done);
  }

  /** `r` is `m` with exactly the peers in `done` ended. */
  ghost predicate EndedOnly(m: Mesh, r: Mesh, done: set<string>) {
    && r.connections.Keys == m.connections.Keys - done
    && (forall p :: p in r.connections ==> r.connections[p] == m.connections[p])
    && r.remoteStreams == DropPeers(m.remoteStreams, done)
  }

  /** One more `handleEndConnection` ends one more peer. */
  lemma EndStep(m: Mesh, r: Mesh, done: set<string>, q: string)
    requires EndedOnly(m, r, done)
    ensures EndedOnly(m, EndConnection(r, q), done + {q})
  {
    DropPeersTwice(m.remoteStreams, done, {q});
  }

  lemma EndedOnlyIsEndAll(m: Mesh, r: Mesh, gone: set<string>)
    requires EndedOnly(m, r, gone)
    ensures r == EndAll(m, gone)
  {
    assert r.connections == EndAll(m, gone).connections;
  }

  /** The connection's state after the local offer has been created and set
      as the local description. */
  function StartOffer(m: Mesh, peerId: string): (r: Mesh)
    requires peerId in m.connections
    ensures r.connections.Keys == m.connections.Keys
    ensures r.connections[peerId].signalingState == HaveLocalOffer
    ensures r.connections[peerId].hasRemoteDescription == m.connections[peerId].hasRemoteDescription
    ensures forall q :: q in m.connections && q != peerId ==> r.connections[q] == m.connections[q]
    ensures r.remoteStreams == m.remoteStreams
  {
    m.(connections := m.connections[peerId := m.connections[peerId].(signalingState := HaveLocalOffer)])
  }

  // ---------------------------------------------------------- roster effect

  /** Roster entries the local client has to offer to: not connected when the
      effect began and above the local id. */
  function Targets(self: string, connected: set<string>, others: seq<User>): set<string>
    decreases |others|
  {
    if others == [] then {}
    else
      (if others[0].id !in connected && Initiates(self, others[0].id) then {others[0].id} else {})
      + Targets(self, connected, others[1..])
  }

  lemma {:induction false} TargetsMeaning(self: string, connected: set<string>, others: seq<User>, q: string)
    ensures q in Targets(self, connected, others) <==> HasId(others, q) && q !in connected && Initiates(self, q)
    decreases |others|
  {
    if others != [] {
      TargetsMeaning(self, connected, others[1..], q);
      if HasId(others, q) && others[0].id != q {
        var i :| 0 <= i < |others| && others[i].id == q;
        assert others[1..][i - 1].id == q;
      }
      if HasId(others[1..], q) {
        var i :| 0 <= i < |others[1..]| && others[1..][i].id == q;
        assert others[i + 1].id == q;
      }
    }
  }

  /** The connect loop of the roster effect: for each roster entry, in order,
      open a connection and send an offer when the tie-break says so. The
      connected set is the snapshot taken before the loop, as in the source. */
  function ConnectNew(self: string, connected: set<string>, others: seq<User>, m: Mesh): (r: (Mesh, seq<string>))
    requires connected <= m.connections.Keys
    ensures ConnectSpec(self, connected, others, m, r)
    decreases |others|
  {
    if others == [] then (m, [])
    else
      var p := others[0];
      if p.id !in connected && Initiates(self, p.id) then
        var m1 := StartOffer(CreatePeerConnection(m, p.id).0, p.id);
        var rest := ConnectNew(self, connected, others[1..], m1);
        var r := (rest.0, [p.id] + rest.1);
        ConnectChosenStep(self, connected, others, m, m1, rest, r);
        r
      else
        var rest := ConnectNew(self, connected, others[1..], m);
        ConnectSkippedStep(self, connected, others, m, rest);
        rest
  }

  /** What the connect loop promises: the new connections are exactly the
      targets, each with its offer under way; nothing else changes; every
      target gets an offer, and with distinct roster ids only one. */
  ghost predicate ConnectSpec(self: string, connected: set<string>, others: seq<User>, m: Mesh, r: (Mesh, seq<string>)) {
    && r.0.connections.Keys == m.connections.Keys + Targets(self, connected, others)
    && (forall q :: q in m.connections && q !in Targets(self, connected, others) ==>
          r.0.connections[q] == m.connections[q])
    && (forall q :: q in Targets(self, connected, others) ==> r.0.connections[q].signalingState == HaveLocalOffer)
    && (forall q :: q in Targets(self, connected, others) ==>
          r.0.connections[q].hasRemoteDescription == (q in m.connections && m.connections[q].hasRemoteDescription))
    && (forall q :: q in r.1 <==> q in Targets(self, connected, others))
    && (DistinctIds(others) ==> NoDuplicates(r.1))
    && r.0.remoteStreams == m.remoteStreams
  }

  lemma {:induction false} ConnectChosenStep(self: string, connected: set<string>, others: seq<User>, m: Mesh, m1: Mesh,
                          rest: (Mesh, seq<string>), r: (Mesh, seq<string>))
    requires others != [] && connected <= m.connections.Keys
    requires others[0].id !in connected && Initiates(self, others[0].id)
    requires m1 == StartOffer(CreatePeerConnection(m, others[0].id).0, others[0].id)
    requires ConnectSpec(self, connected, others[1..], m1, rest)
    requires r == (rest.0, [others[0].id] + rest.1)
    ensures ConnectSpec(self, connected, others, m, r)
  {
    var p := others[0];
    var t := Targets(self, connected, others);
    var t1 := Targets(self, connected, others[1..]);
    assert t == {p.id} + t1;
    assert m1.connections.Keys == m.connections.Keys + {p.id};
    assert r.0.connections.Keys == m.connections.Keys + t;
    forall q | q in m.connections && q !in t ensures r.0.connections[q] == m.connections[q] {
      assert q != p.id && q !in t1 && q in m1.connections;
    }
    forall q | q in t ensures r.0.connections[q].signalingState == HaveLocalOffer {
      if q !in t1 {
        assert q == p.id && q in m1.connections;
      }
    }
    forall q | q in t
      ensures r.0.connections[q].hasRemoteDescription == (q in m.connections && m.connections[q].hasRemoteDescription)
    {
      if q !in t1 {
        assert q == p.id && q in m1.connections;
      } else if q != p.id {
        assert q in m1.connections <==> q in m.connections;
      }
    }
    forall q ensures q in r.1 <==> q in t {
      assert q in r.1 <==> q == p.id || q in rest.1;
    }
    if DistinctIds(others) {
      DistinctTail(others);
      TargetsMeaning(self, connected, others[1..], p.id);
      NoDuplicatesCons(p.id, rest.1);
    }
  }

  /** No element occurs twice. */
  predicate NoDuplicates(xs: seq<string>) {
    forall i, j :: 0 <= i < j < |xs| ==> xs[i] != xs[j]
  }

  lemma NoDuplicatesCons(x: string, xs: seq<string>)
    requires x !in xs && NoDuplicates(xs)
    ensures NoDuplicates([x] + xs)
  {
    var ys := [x] + xs;
    forall i, j | 0 <= i < j < |ys| ensures ys[i] != ys[j] {
      if i > 0 { assert ys[i] == xs[i - 1] && ys[j] == xs[j - 1]; }
      else { assert ys[j] in xs; }
    }
  }

  lemma {:induction false} ConnectSkippedStep(self: string, connected: set<string>, others: seq<User>, m: Mesh,
                           rest: (Mesh, seq<string>))
    requires others != [] && connected <= m.connections.Keys
    requires !(others[0].id !in connected && Initiates(self, others[0].id))
    requires ConnectSpec(self, connected, others[1..], m, rest)
    ensures ConnectSpec(self, connected, others, m, rest)
  {
    assert Targets(self, connected, others) == Targets(self, connected, others[1..]);
    if DistinctIds(others) {
      DistinctTail(others);
    }
  }

  /** The tail of a list with distinct ids has distinct ids and lacks the
      head's id. */
  lemma DistinctTail(us: seq<User>)
    requires us != []
    ensures DistinctIds(us) ==> DistinctIds(us[1..]) && !HasId(us[1..], us[0].id)
  {
    if DistinctIds(us) {
      forall i | 0 <= i < |us[1..]| ensures us[1..][i].id != us[0].id {
        assert us[1..][i] == us[i + 1];
      }
      forall i, j | 0 <= i < j < |us[1..]| ensures us[1..][i].id != us[1..][j].id {
        assert us[1..][i] == us[i + 1] && us[1..][j] == us[j + 1];
      }
    }
  }

  /** Roster ids other than the local one. */
  function OtherIds(self: string, roster: seq<User>): set<string> {
    set p | p in roster && p.id != self :: p.id
  }

  /** The outcome of one run of the roster effect. */
  datatype RosterOutcome = RosterOutcome(mesh: Mesh, offersTo: seq<string>)

  /** The roster effect: without a local stream nothing
      happens; otherwise connect to the new roster entries the tie-break
      assigns to this client, then end every connection whose peer is no
      longer in the roster. */
  function RosterEffect(self: string, hasLocalStream: bool, roster: seq<User>, m: Mesh): (r: RosterOutcome)
    ensures !hasLocalStream ==> r == RosterOutcome(m, [])
    ensures self !in r.offersTo
    ensures self !in m.connections ==> self !in r.mesh.connections
    ensures hasLocalStream ==> forall q :: q in r.offersTo <==>
              q in OtherIds(self, roster) && q !in m.connections && Initiates(self, q)
    ensures forall q :: q in r.offersTo ==>
              q in r.mesh.connections && r.mesh.connections[q].signalingState == HaveLocalOffer
    ensures hasLocalStream ==> forall q :: q in r.offersTo ==> !r.mesh.connections[q].hasRemoteDescription
    ensures hasLocalStream ==> forall q :: q in r.mesh.connections <==>
              q in OtherIds(self, roster) && (q in m.connections || Initiates(self, q))
    ensures forall q :: q in m.connections && q in r.mesh.connections ==> r.mesh.connections[q] == m.connections[q]
    ensures hasLocalStream ==> forall q :: q in m.connections && q !in OtherIds(self, roster) ==>
              q !in r.mesh.connections && !HasStreamFor(r.mesh.remoteStreams, q)
    ensures hasLocalStream ==> forall s :: s in r.mesh.remoteStreams <==>
              s in m.remoteStreams && (s.peerId !in m.connections || s.peerId in OtherIds(self, roster))
    ensures DistinctIds(roster) ==> NoDuplicates(r.offersTo)
    ensures OneStreamPerPeer(m.remoteStreams) ==> OneStreamPerPeer(r.mesh.remoteStreams)
  {
    ExactlyOneInitiator(self, self);
    if !hasLocalStream then RosterOutcome(m, [])
    else
      var others := WithoutId(roster, self);
      var connected := m.connections.Keys;
      var connect := ConnectNew(self, connected, others, m);
      var departed := set q | q in connected && q !in OtherIds(self, roster);
      var r := RosterOutcome(EndAll(connect.0, departed), connect.1);
      TargetsAreNewPeers(self, roster, connected);
      DropPeersKeepsOne(connect.0.remoteStreams, departed);
      assert forall q :: q in connect.1 ==> q !in departed && q in r.mesh.connections;
      r
  }

  /** The roster effect's targets are the roster's other peers that are not
      connected yet and that this client initiates to. */
  lemma TargetsAreNewPeers(self: string, roster: seq<User>, connected: set<string>)
    ensures var others := WithoutId(roster, self);
      forall q :: q in Targets(self, connected, others) <==>
        q in OtherIds(self, roster) && q !in connected && Initiates(self, q)
  {
    var others := WithoutId(roster, self);
    forall q ensures q in Targets(self, connected, others) <==>
                     q in OtherIds(self, roster) && q !in connected && Initiates(self, q) {
      TargetsMeaning(self, connected, others, q);
      if q in OtherIds(self, roster) {
        var p :| p in roster && p.id != self && p.id == q;
        assert p in others;
        var i :| 0 <= i < |others| && others[i] == p;
      }
      if HasId(others, q) {
        var i :| 0 <= i < |others| && others[i].id == q;
        assert others[i] in others;
      }
    }
  }

  /** Two clients that each list the other and have no connection to each
      other: exactly one of them sends an offer to the other. */
  lemma OneOfferPerPair(a: User, b: User, rosterA: seq<User>, rosterB: seq<User>, ma: Mesh, mb: Mesh)
    requires a.id != b.id
    requires b in rosterA && a in rosterB
    requires b.id !in ma.connections && a.id !in mb.connections
    ensures (b.id in RosterEffect(a.id, true, rosterA, ma).offersTo)
         != (a.id in RosterEffect(b.id, true, rosterB, mb).offersTo)
  {
    assert b.id in OtherIds(a.id, rosterA);
    assert a.id in OtherIds(b.id, rosterB);
    ExactlyOneInitiator(a.id, b.id);
  }

  // ------------------------------------------------------ mailbox listeners

  /** What a listener did with one mailbox document. `deleted` is false when
      the handler threw before reaching its `deleteDoc`. */
  datatype Handled = Handled(mesh: Mesh, applied: bool, deleted: bool)

  /** The outcome of the offer listener for one offer document. */
  datatype OfferHandled = OfferHandled(mesh: Mesh, answer: AnswerDoc, deleted: bool)

  /** The offer listener: reuse or create the sender's connection, apply the
      offer, answer it (the connection returns to stable), write the answer
      into the sender's mailbox under the local id, delete the offer. */
  function HandleOffer(m: Mesh, self: string, from: string): (r: OfferHandled)
    ensures r.mesh.connections.Keys == m.connections.Keys + {from}
    ensures r.mesh.connections[from] == Connection(Stable, true)
    ensures forall q :: q in m.connections && q != from ==> r.mesh.connections[q] == m.connections[q]
    ensures r.mesh.remoteStreams == m.remoteStreams
    ensures r.answer == AnswerDoc(from, self, self)
    ensures r.deleted
  {
    var created := CreatePeerConnection(m, from).0;
    var m1 := created.(connections := created.connections[from := Connection(Stable, true)]);
    OfferHandled(m1, AnswerDoc(from, self, self), true)
  }

  /** A duplicate delivery of the same offer creates no second connection and
      leaves the mesh as the first delivery left it. */
  lemma DuplicateOfferHarmless(m: Mesh, self: string, from: string)
    ensures var once := HandleOffer(m, self, from);
      HandleOffer(once.mesh, self, from).mesh == once.mesh
  {
  }

  /** The states in which `setRemoteDescription(answer)` succeeds (as the W3C
      WebRTC specification defines it); it rejects in every other non-stable
      state. */
  predicate AcceptsAnswer(st: SignalingState) {
    st == HaveLocalOffer || st == HaveRemotePranswer
  }

  /** The answer listener as written. `pc?.signalingState !== 'stable'` is
      also true when there is no connection, and the call on the missing
      connection then throws; a connection in a state that does not accept an
      answer rejects it. Either way the listener stops before `deleteDoc`. */
  function HandleAnswer(m: Mesh, from: string): (r: Handled)
    ensures r.applied <==> from in m.connections && AcceptsAnswer(m.connections[from].signalingState)
    ensures r.deleted <==>
              from in m.connections &&
              (m.connections[from].signalingState == Stable || AcceptsAnswer(m.connections[from].signalingState))
    ensures r.applied ==> r.mesh.connections == m.connections[from := Connection(Stable, true)]
                          && r.mesh.remoteStreams == m.remoteStreams
    ensures !r.applied ==> r.mesh == m
  {
    if from !in m.connections then Handled(m, false, false)
    else if m.connections[from].signalingState == Stable then Handled(m, false, true)
    else if AcceptsAnswer(m.connections[from].signalingState) then
      Handled(m.(connections := m.connections[from := Connection(Stable, true)]), true, true)
    else Handled(m, false, false)
  }

  /** An answer from a peer this client holds no connection to stays in the
      mailbox for good. */
  lemma AnswerWithoutConnectionStays(m: Mesh, from: string)
    requires from !in m.connections
    ensures !HandleAnswer(m, from).deleted && HandleAnswer(m, from).mesh == m
  {
  }

  /** The answer listener with the evidently intended guard
      `pc && pc.signalingState !== 'stable'`: an answer without a connection
      is skipped and deleted; everything else is as written. */
  function HandleAnswerGuarded(m: Mesh, from: string): (r: Handled)
    ensures from !in m.connections ==> r == Handled(m, false, true)
    ensures r.applied <==> from in m.connections && AcceptsAnswer(m.connections[from].signalingState)
    ensures r.deleted <==>
              from !in m.connections || m.connections[from].signalingState == Stable ||
              AcceptsAnswer(m.connections[from].signalingState)
    ensures r.applied ==> r.mesh.connections == m.connections[from := Connection(Stable, true)]
                          && r.mesh.remoteStreams == m.remoteStreams
    ensures !r.applied ==> r.mesh == m
  {
    if from !in m.connections then Handled(m, false, true)
    else if m.connections[from].signalingState == Stable then Handled(m, false, true)
    else if AcceptsAnswer(m.connections[from].signalingState) then
      Handled(m.(connections := m.connections[from := Connection(Stable, true)]), true, true)
    else Handled(m, false, false)
  }

  /** The guarded listener agrees with the listener as written whenever the
      sender's connection exists. */
  lemma GuardedAgreesWithConnection(m: Mesh, from: string)
    requires from in m.connections
    ensures HandleAnswerGuarded(m, from) == HandleAnswer(m, from)
  {
  }

  /** `addIceCandidate` succeeds only on an open connection that has a
      remote description (as the W3C WebRTC specification defines it). */
  predicate AcceptsCandidate(c: Connection) {
    c.hasRemoteDescription && c.signalingState != Closed
  }

  /** The ICE listener: add the candidate when the sender's connection exists
      (the signaling state does not change) and delete the document. A
      rejected `addIceCandidate` stops the listener before `deleteDoc`; without
      a connection the document is deleted unapplied. */
  function HandleIce(m: Mesh, from: string): (r: Handled)
    ensures r.applied <==> from in m.connections && AcceptsCandidate(m.connections[from])
    ensures r.deleted <==> from !in m.connections || AcceptsCandidate(m.connections[from])
    ensures r.mesh == m
  {
    if from !in m.connections then Handled(m, false, true)
    else if AcceptsCandidate(m.connections[from]) then Handled(m, true, true)
    else Handled(m, false, false)
  }

  // -------------------------------------------------------------- invariant

  /** The connection states the handlers leave behind: settled with a remote
      description, or waiting for the answer to a local offer. */
  predicate Reachable(c: Connection) {
    || (c.signalingState == Stable && c.hasRemoteDescription)
    || (c.signalingState == HaveLocalOffer && !c.hasRemoteDescription)
  }

  /** What the mesh keeps true: no connection to the local client, every
      connection in a reachable state, at most one stream per peer, and
      streams only for connected peers. */
  predicate Valid(m: Mesh, self: string) {
    && self !in m.connections
    && (forall q :: q in m.connections ==> Reachable(m.connections[q]))
    && OneStreamPerPeer(m.remoteStreams)
    && forall s :: s in m.remoteStreams ==> s.peerId in m.connections
  }

  lemma ValidEmpty(self: string)
    ensures Valid(EmptyMesh, self)
  {
  }

  /** An inbound stream only arrives on a live connection; recording it keeps
      the mesh valid. */
  lemma ValidOnTrack(m: Mesh, self: string, peerId: string, stream: StreamId)
    requires Valid(m, self) && peerId in m.connections
    ensures Valid(OnTrack(m, peerId, stream), self)
  {
  }

  /** Ending a connection, directly or on a state change, keeps the mesh valid. */
  lemma ValidEnd(m: Mesh, self: string, peerId: string, state: PeerConnectionState)
    requires Valid(m, self)
    ensures Valid(EndConnection(m, peerId), self)
    ensures Valid(OnConnectionStateChange(m, peerId, state), self)
  {
  }

  /** The roster effect keeps the mesh valid. */
  lemma ValidRoster(m: Mesh, self: string, hasLocalStream: bool, roster: seq<User>)
    requires Valid(m, self)
    ensures Valid(RosterEffect(self, hasLocalStream, roster, m).mesh, self)
  {
    var r := RosterEffect(self, hasLocalStream, roster, m).mesh;
    if hasLocalStream {
      forall s | s in r.remoteStreams ensures s.peerId in r.connections {
        assert s.peerId in m.connections;
      }
    }
  }

  /** The mailbox listeners keep the mesh valid, given that no offer is
      addressed from the local client to itself. */
  lemma ValidMailbox(m: Mesh, self: string, from: string)
    requires Valid(m, self)
    ensures from != self ==> Valid(HandleOffer(m, self, from).mesh, self)
    ensures Valid(HandleAnswer(m, from).mesh, self)
    ensures Valid(HandleAnswerGuarded(m, from).mesh, self)
    ensures Valid(HandleIce(m, from).mesh, self)
  {
  }

  /** In a valid mesh no answer is ever rejected by its connection: the
      listener as written leaves exactly the answers without a connection
      behind, and the guarded listener consumes every answer. */
  lemma ValidAnswerConsumed(m: Mesh, self: string, from: string)
    requires Valid(m, self)
    ensures HandleAnswer(m, from).deleted <==> from in m.connections
    ensures HandleAnswerGuarded(m, from).deleted
  {
    if from in m.connections {
      assert Reachable(m.connections[from]);
    }
  }

  /** In a valid mesh a candidate is applied exactly on a settled connection;
      one that reaches a connection still waiting for its answer is rejected
      and stays in the mailbox. */
  lemma ValidIceOutcome(m: Mesh, self: string, from: string)
    requires Valid(m, self) && from in m.connections
    ensures HandleIce(m, from).applied <==> m.connections[from].signalingState == Stable
    ensures HandleIce(m, from).deleted <==> m.connections[from].signalingState == Stable
  {
    assert Reachable(m.connections[from]);
  }

  /** A candidate from a peer the roster effect has just sent an offer to,
      arriving before that peer's answer, is neither applied nor deleted. */
  lemma CandidateBeforeAnswerStays(self: string, roster: seq<User>, m: Mesh)
    ensures var o := RosterEffect(self, true, roster, m);
      forall q :: q in o.offersTo ==> !HandleIce(o.mesh, q).applied && !HandleIce(o.mesh, q).deleted
  {
  }
}
