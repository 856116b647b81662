/** The single-connection WebRTC receiver (server_highquality.py): the module
    globals `pcs`, `connection_active` and `virtual_cam`, and the handlers that
    change them: the POST /offer handler, a peer's connection-state callback, the
    application's shutdown hook and the video consumer. Peer connections are
    opaque ids handed out in creation order; the SDP exchange is a parameter
    saying whether it succeeded. Handlers run one at a time. */
module Admission {
  import opened Options
  import opened Sequences
  import opened VirtualCam

  type PeerId = nat

  /** `RTCPeerConnection.connectionState` */
  datatype ConnectionState = New | Connecting | Connected | Disconnected | Failed | Closed

  /** The states on which the callback releases the connection. */
  predicate Ends(st: ConnectionState)
  {
    st == Failed || st == Closed
  }

  /** The three globals, and the id the next peer connection will get. */
  datatype ServerState = ServerState(
    pcs: seq<PeerId>,
    connectionActive: bool,
    virtualCam: Option<Camera>,
    nextPeer: PeerId)

  const Initial := ServerState([], false, None, 0)

  /** Ids in `pcs` are distinct and all were handed out already. */
  predicate WellFormed(s: ServerState)
  {
    && (forall i :: 0 <= i < |s.pcs| ==> s.pcs[i] < s.nextPeer)
    && (forall i, j :: 0 <= i < j < |s.pcs| ==> s.pcs[i] != s.pcs[j])
  }

  /** What the single-connection design means: at most one peer, and the flag is
      set exactly when there is one. */
  predicate SingleConnection(s: ServerState)
  {
    |s.pcs| <= 1 && (s.connectionActive <==> |s.pcs| == 1)
  }

  /** The answer to POST /offer. An exception in the handler is answered by the
      web framework with status 500. */
  datatype Response = Busy | ServerError | Answer(peer: PeerId)

  function HttpStatus(r: Response): int
  {
    match r
    case Busy => 503
    case ServerError => 500
    case Answer(_) => 200
  }

  /** The request body: None when it is not a JSON object, else its top-level fields. */
  type OfferBody = Option<map<string, string>>

  datatype OfferOutcome = OfferOutcome(state: ServerState, response: Response)

  /** `offer`: refuse while a connection is active; read the body (malformed JSON
      or a missing "sdp" field raises before anything changes); create a peer,
      append it and set the flag; then run the SDP exchange, whose failure
      raises with the peer already admitted. */
  function OfferStep(s: ServerState, body: OfferBody, negotiated: bool): (o: OfferOutcome)
    ensures HttpStatus(o.response) == 503 <==> s.connectionActive
    ensures o.state != s ==>
              && !s.connectionActive && o.state.connectionActive
              && o.state.pcs == s.pcs + [s.nextPeer] && o.state.virtualCam == s.virtualCam
    ensures o.response.Answer? ==> o.state.pcs == s.pcs + [o.response.peer]
    ensures !s.connectionActive && (body.None? || "sdp" !in body.value) ==> o == OfferOutcome(s, ServerError)
    ensures !s.connectionActive && body.Some? && "sdp" in body.value ==>
              && o.state.connectionActive && o.state.pcs == s.pcs + [s.nextPeer]
              && (negotiated <==> o.response.Answer?)
  {
    if s.connectionActive then OfferOutcome(s, Busy)
    else if body.None? || "sdp" !in body.value then OfferOutcome(s, ServerError)
    else
      var pc := s.nextPeer;
      var admitted := s.(pcs := s.pcs + [pc], connectionActive := true, nextPeer := pc + 1);
      OfferOutcome(admitted, if negotiated then Answer(pc) else ServerError)
  }

  /** The position of the first occurrence of x in xs. */
  function FirstIndex(xs: seq<PeerId>, x: PeerId): (k: nat)
    requires x in xs
    ensures k < |xs| && xs[k] == x && x !in xs[..k]
  {
    if xs[0] == x then 0 else 1 + FirstIndex(xs[1..], x)
  }

  /** Python's `list.remove` on a list known to hold x: drop its first occurrence. */
  function RemoveFirst(xs: seq<PeerId>, x: PeerId): (r: seq<PeerId>)
    ensures RemovedFirst(xs, x, r)
  {
    if xs == [] then []
    else if xs[0] == x then
      assert xs == [xs[0]] + xs[1..];
      xs[1..]
    else
      var t := RemoveFirst(xs[1..], x);
      RemovedFirstBehindHead(xs, x, t);
      [xs[0]] + t
  }

  /** r is xs without the first occurrence of x, the other elements in their
      order; without x, r is xs. */
  predicate RemovedFirst(xs: seq<PeerId>, x: PeerId, r: seq<PeerId>)
  {
    && (x !in xs ==> r == xs)
    && (x in xs ==> r == xs[..FirstIndex(xs, x)] + xs[FirstIndex(xs, x) + 1..])
    && (x in xs ==> |r| == |xs| - 1 && multiset(r) == multiset(xs) - multiset{x})
  }

  /** Removing from a list whose head is not x removes from its tail. */
  lemma RemovedFirstBehindHead(xs: seq<PeerId>, x: PeerId, t: seq<PeerId>)
    requires xs != [] && xs[0] != x
    requires RemovedFirst(xs[1..], x, t)
    ensures RemovedFirst(xs, x, [xs[0]] + t)
  {
    assert xs == [xs[0]] + xs[1..];
    if x in xs {
      var k := FirstIndex(xs[1..], x);
      assert FirstIndex(xs, x) == k + 1;
      assert xs[..k + 1] == [xs[0]] + xs[1..][..k];
      assert xs[k + 2..] == xs[1..][k + 1..];
      ConcatAssoc([xs[0]], xs[1..][..k], xs[1..][k + 1..]);
    }
  }

  /** `on_connectionstatechange` as written: on "failed" or "closed" clear the
      flag unconditionally, and remove the peer if it is still listed. */
  function StateChangeStep(s: ServerState, pc: PeerId, st: ConnectionState): (r: ServerState)
    ensures !Ends(st) ==> r == s
    ensures Ends(st) ==> !r.connectionActive && multiset(r.pcs) == multiset(s.pcs) - multiset{pc}
    ensures r.virtualCam == s.virtualCam && r.nextPeer == s.nextPeer
  {
    if !Ends(st) then s
    else s.(connectionActive := false, pcs := if pc in s.pcs then RemoveFirst(s.pcs, pc) else s.pcs)
  }

  /** The callback as the single-connection design needs it: only a peer that is
      still listed releases the connection. */
  function GuardedStateChangeStep(s: ServerState, pc: PeerId, st: ConnectionState): (r: ServerState)
    ensures r.connectionActive <==> s.connectionActive && !(Ends(st) && pc in s.pcs)
    ensures multiset(r.pcs) == if Ends(st) then multiset(s.pcs) - multiset{pc} else multiset(s.pcs)
    ensures r.virtualCam == s.virtualCam && r.nextPeer == s.nextPeer
  {
    if Ends(st) && pc in s.pcs then s.(connectionActive := false, pcs := RemoveFirst(s.pcs, pc))
    else s
  }

  /** `on_shutdown`: close every peer, empty the list, clear the flag, close and
      drop the camera. */
  function ShutdownStep(s: ServerState): (r: ServerState)
    ensures r.pcs == [] && !r.connectionActive && r.virtualCam == None
    ensures SingleConnection(r) && (WellFormed(s) ==> WellFormed(r))
  {
    s.(pcs := [], connectionActive := false, virtualCam := None)
  }

  /** The video consumer's effect on the camera global. */
  function ConsumeStep(s: ServerState, frames: seq<Frame>): (r: ServerState)
    ensures r.pcs == s.pcs && r.connectionActive == s.connectionActive && r.nextPeer == s.nextPeer
    ensures r.virtualCam.Some? ==> !r.virtualCam.value.open
    ensures r.virtualCam.None? <==> s.virtualCam.None? && (frames == [] || !Usable(frames[0]))
  {
    s.(virtualCam := ConsumeVideo(s.virtualCam, frames).cam)
  }

  /** GET /status */
  datatype StatusReport = StatusReport(peers: nat, connectionActive: bool, cameraActive: bool)

  /** Whatever reaches the server, in the order it is handled. */
  datatype Event =
    | OfferEvent(body: OfferBody, negotiated: bool)
    | StateEvent(peer: PeerId, state: ConnectionState)
    | ShutdownEvent
    | TrackEvent(frames: seq<Frame>)

  /** One event; `guarded` selects the corrected state callback. */
  function Step(s: ServerState, e: Event, guarded: bool): ServerState
  {
    match e
    case OfferEvent(body, negotiated) => OfferStep(s, body, negotiated).state
    case StateEvent(pc, st) => if guarded then GuardedStateChangeStep(s, pc, st) else StateChangeStep(s, pc, st)
    case ShutdownEvent => ShutdownStep(s)
    case TrackEvent(frames) => ConsumeStep(s, frames)
  }

  function Run(s: ServerState, events: seq<Event>, guarded: bool): ServerState
    decreases |events|
  {
    if events == [] then s else Run(Step(s, events[0], guarded), events[1..], guarded)
  }

  lemma RemoveFirstKeepsWellFormed(s: ServerState, pc: PeerId)
    requires WellFormed(s)
    ensures WellFormed(s.(pcs := RemoveFirst(s.pcs, pc)))
    ensures pc !in RemoveFirst(s.pcs, pc)
  {
    if pc in s.pcs {
      var k := FirstIndex(s.pcs, pc);
      DropAt(s.pcs, k, RemoveFirst(s.pcs, pc), s.nextPeer);
    }
  }

  /** Dropping the element at k from a list without repeats, all below `bound`,
      leaves a list without repeats, all below `bound`, that lacks that element. */
  lemma DropAt(xs: seq<PeerId>, k: nat, r: seq<PeerId>, bound: PeerId)
    requires k < |xs| && r == xs[..k] + xs[k + 1..]
    requires forall i :: 0 <= i < |xs| ==> xs[i] < bound
    requires forall i, j :: 0 <= i < j < |xs| ==> xs[i] != xs[j]
    ensures forall i :: 0 <= i < |r| ==> r[i] < bound && r[i] != xs[k]
    ensures forall i, j :: 0 <= i < j < |r| ==> r[i] != r[j]
  {
    assert |r| == |xs| - 1;
    forall i | 0 <= i < |r|
      ensures r[i] == xs[if i < k then i else i + 1]
    {
      if i < k {
        assert r[i] == xs[..k][i];
      } else {
        assert r[i] == xs[k + 1..][i - k];
      }
    }
  }

  /** Every handler, as written, keeps the peer list free of repeats. */
  lemma StepKeepsWellFormed(s: ServerState, e: Event, guarded: bool)
    requires WellFormed(s)
    ensures WellFormed(Step(s, e, guarded))
  {
    match e
    case StateEvent(pc, st) => StateChangeKeepsWellFormed(s, pc, st, guarded);
    case OfferEvent(body, negotiated) => OfferKeepsWellFormed(s, body, negotiated);
    case ShutdownEvent =>
    case TrackEvent(frames) => SamePeersKeepWellFormed(s, ConsumeStep(s, frames));
  }

  lemma SamePeersKeepWellFormed(s: ServerState, r: ServerState)
    requires WellFormed(s) && r.pcs == s.pcs && r.nextPeer == s.nextPeer
    ensures WellFormed(r)
  {
  }

  lemma StateChangeKeepsWellFormed(s: ServerState, pc: PeerId, st: ConnectionState, guarded: bool)
    requires WellFormed(s)
    ensures WellFormed(if guarded then GuardedStateChangeStep(s, pc, st) else StateChangeStep(s, pc, st))
  {
    var r := if guarded then GuardedStateChangeStep(s, pc, st) else StateChangeStep(s, pc, st);
    if Ends(st) && pc in s.pcs {
      RemoveFirstKeepsWellFormed(s, pc);
      assert r == s.(connectionActive := false, pcs := RemoveFirst(s.pcs, pc));
    } else {
      SamePeersKeepWellFormed(s, r);
    }
  }

  lemma OfferKeepsWellFormed(s: ServerState, body: OfferBody, negotiated: bool)
    requires WellFormed(s)
    ensures WellFormed(OfferStep(s, body, negotiated).state)
  {
  }

  /** An offer keeps the single-connection invariant: it is refused while a peer
      is live and otherwise admits exactly one. */
  lemma OfferKeepsSingleConnection(s: ServerState, body: OfferBody, negotiated: bool)
    requires SingleConnection(s)
    ensures SingleConnection(OfferStep(s, body, negotiated).state)
    ensures HttpStatus(OfferStep(s, body, negotiated).response) == 503 <==> |s.pcs| == 1
  {
  }

  /** The callback as written keeps the invariant for every event except a
      terminal state reported by a peer that is no longer listed while another
      one is live. */
  lemma StateChangeKeepsSingleConnection(s: ServerState, pc: PeerId, st: ConnectionState)
    requires SingleConnection(s)
    requires !Ends(st) || pc in s.pcs || !s.connectionActive
    ensures SingleConnection(StateChangeStep(s, pc, st))
  {
    if Ends(st) && pc in s.pcs {
      assert s.pcs == [pc];
    }
  }

  /** The exception: a late "failed" or "closed" from a peer that was already
      removed clears the flag while the newer peer is live, and the next offer is
      then admitted beside it. */
  lemma StaleEndBreaksSingleConnection(s: ServerState, pc: PeerId, st: ConnectionState, body: map<string, string>)
    requires WellFormed(s) && SingleConnection(s)
    requires s.connectionActive && pc !in s.pcs && Ends(st) && "sdp" in body
    ensures var s' := StateChangeStep(s, pc, st);
      && !SingleConnection(s')
      && OfferStep(s', Some(body), true).response.Answer?
      && |OfferStep(s', Some(body), true).state.pcs| == 2
  {
  }

  /** A sequence of events from a fresh start that reaches that state: peer 0
      fails and is removed, peer 1 is admitted, peer 0 then reports "closed", and
      a third offer is answered while peer 1 is still listed. */
  lemma StaleCloseTrace()
    ensures var body := Some(map["sdp" := "offer"]);
      var events := [OfferEvent(body, true), StateEvent(0, Failed), OfferEvent(body, true), StateEvent(0, Closed)];
      && SingleConnection(Run(Initial, events[..3], false))
      && !SingleConnection(Run(Initial, events, false))
      && Run(Initial, events + [OfferEvent(body, true)], false).pcs == [1, 2]
      && SingleConnection(Run(Initial, events + [OfferEvent(body, true)], true))
  {
    var body := Some(map["sdp" := "offer"]);
    var e0, e1, e2, e3 := OfferEvent(body, true), StateEvent(0, Failed), OfferEvent(body, true), StateEvent(0, Closed);
    StaleCloseSteps(body);
    assert [] + [e0] == [e0];
    RunSnoc(Initial, [], e0, false);
    assert Run(Initial, [e0], false) == ServerState([0], true, None, 1);
    assert [e0] + [e1] == [e0, e1];
    RunSnoc(Initial, [e0], e1, false);
    assert Run(Initial, [e0, e1], false) == ServerState([], false, None, 1);
    assert [e0, e1] + [e2] == [e0, e1, e2];
    RunSnoc(Initial, [e0, e1], e2, false);
    assert Run(Initial, [e0, e1, e2], false) == ServerState([1], true, None, 2);
    assert [e0, e1, e2] + [e3] == [e0, e1, e2, e3];
    RunSnoc(Initial, [e0, e1, e2], e3, false);
    assert Run(Initial, [e0, e1, e2, e3], false) == ServerState([1], false, None, 2);
    RunSnoc(Initial, [e0, e1, e2, e3], e0, false);
    assert [e0, e1, e2, e3][..3] == [e0, e1, e2];
    GuardedRunKeepsSingleConnection(Initial, [e0, e1, e2, e3] + [e0]);
  }

  /** The handler steps of that sequence, one at a time. */
  lemma StaleCloseSteps(body: OfferBody)
    requires body == Some(map["sdp" := "offer"])
    ensures Step(Initial, OfferEvent(body, true), false) == ServerState([0], true, None, 1)
    ensures Step(ServerState([0], true, None, 1), StateEvent(0, Failed), false) == ServerState([], false, None, 1)
    ensures Step(ServerState([], false, None, 1), OfferEvent(body, true), false) == ServerState([1], true, None, 2)
    ensures Step(ServerState([1], true, None, 2), StateEvent(0, Closed), false) == ServerState([1], false, None, 2)
    ensures Step(ServerState([1], false, None, 2), OfferEvent(body, true), false).pcs == [1, 2]
  {
    assert [0][0] == 0 && [0][1..] == [];
  }

  /** Running one more event after a sequence is one more step. */
  lemma RunSnoc(s: ServerState, a: seq<Event>, e: Event, guarded: bool)
    ensures Run(s, a + [e], guarded) == Step(Run(s, a, guarded), e, guarded)
  {
    RunAppend(s, a, [e], guarded);
    assert [e][1..] == [];
  }

  /** Running two sequences of events one after the other is running their
      concatenation. */
  lemma {:induction false} RunAppend(s: ServerState, a: seq<Event>, b: seq<Event>, guarded: bool)
    ensures Run(s, a + b, guarded) == Run(Run(s, a, guarded), b, guarded)
    decreases |a|
  {
    if a == [] {
      assert a + b == b;
    } else {
      assert (a + b)[1..] == a[1..] + b;
      RunAppend(Step(s, a[0], guarded), a[1..], b, guarded);
    }
  }

  /** The corrected callback keeps the invariant for every event. */
  lemma GuardedStateChangeKeepsSingleConnection(s: ServerState, pc: PeerId, st: ConnectionState)
    requires SingleConnection(s)
    ensures SingleConnection(GuardedStateChangeStep(s, pc, st))
    ensures pc in s.pcs || !Ends(st) ==> GuardedStateChangeStep(s, pc, st) == StateChangeStep(s, pc, st)
  {
    if Ends(st) && pc in s.pcs {
      assert s.pcs == [pc];
    }
  }

  /** With the corrected callback, every sequence of events from any state
      satisfying the invariant keeps at most one peer, flagged exactly when live. */
  lemma {:induction false} GuardedRunKeepsSingleConnection(s: ServerState, events: seq<Event>)
    requires SingleConnection(s)
    ensures SingleConnection(Run(s, events, true))
    decreases |events|
  {
    if events != [] {
      match events[0] {
        case OfferEvent(body, negotiated) => OfferKeepsSingleConnection(s, body, negotiated);
        case StateEvent(pc, st) => GuardedStateChangeKeepsSingleConnection(s, pc, st);
        case ShutdownEvent =>
        case TrackEvent(frames) =>
      }
      GuardedRunKeepsSingleConnection(Step(s, events[0], true), events[1..]);
    }
  }

  /** Peer ids stay distinct under every sequence of events, as written. */
  lemma {:induction false} RunKeepsWellFormed(s: ServerState, events: seq<Event>, guarded: bool)
    requires WellFormed(s)
    ensures WellFormed(Run(s, events, guarded))
    decreases |events|
  {
    if events != [] {
      StepKeepsWellFormed(s, events[0], guarded);
      RunKeepsWellFormed(Step(s, events[0], guarded), events[1..], guarded);
    }
  }

  /** The server's globals, changed in place by its handlers. */
  class Server {
    var pcs: seq<PeerId>
    var connectionActive: bool
    var virtualCam: Option<Camera>
    var nextPeer: PeerId

    function State(): ServerState
      reads this
    {
      ServerState(pcs, connectionActive, virtualCam, nextPeer)
    }

    /** Module load: no peers, no active connection, no camera. */
    constructor ()
      ensures State() == Initial
    {
      pcs, connectionActive, virtualCam, nextPeer := [], false, None, 0;
    }

    /** POST /offer */
    method Offer(body: OfferBody, negotiated: bool) returns (response: Response)
      modifies this
      ensures OfferOutcome(State(), response) == OfferStep(old(State()), body, negotiated)
    {
      if connectionActive {
        return Busy;
      }
      if body.None? || "sdp" !in body.value {
        return ServerError;
      }
      var pc := nextPeer;
      nextPeer := nextPeer + 1;
      pcs := pcs + [pc];
      connectionActive := true;
      if !negotiated {
        return ServerError;
      }
      response := Answer(pc);
    }

    /** The "connectionstatechange" callback registered for peer `pc`. */
    method OnConnectionStateChange(pc: PeerId, st: ConnectionState)
      modifies this
      ensures State() == StateChangeStep(old(State()), pc, st)
    {
      if st == Failed || st == Closed {
        connectionActive := false;
        if pc in pcs {
          pcs := RemoveFirst(pcs, pc);
        }
      }
    }

    /** The shutdown hook; returns the peers it closed and whether it closed a camera. */
    method OnShutdown() returns (closedPeers: seq<PeerId>, closedCamera: bool)
      modifies this
      ensures State() == ShutdownStep(old(State()))
      ensures closedPeers == old(pcs) && closedCamera == old(virtualCam).Some?
    {
      closedPeers := pcs;
      pcs := [];
      connectionActive := false;
      closedCamera := virtualCam.Some?;
      if virtualCam.Some? {
        virtualCam := None;
      }
    }

    /** GET /status: peer count, the flag, and whether a camera is set. */
    method Status() returns (report: StatusReport)
      ensures report.peers == |pcs| && report.connectionActive == connectionActive
      ensures report.cameraActive <==> virtualCam != None
    {
      report := StatusReport(|pcs|, connectionActive, virtualCam.Some?);
    }

    /** `consume_video` on the frames a video track delivers before it ends:
        open the camera at the first frame's size, then skip missing and empty
        frames, reopen the camera when the size changes, send every other frame;
        close the camera when the track ends. Returns the frames sent and the
        number of reopenings. */
    method ConsumeVideo(frames: seq<Frame>) returns (sent: nat, reinits: nat)
      modifies this
      ensures State() == ConsumeStep(old(State()), frames)
      ensures sent == VirtualCam.ConsumeVideo(old(virtualCam), frames).sent
      ensures reinits == VirtualCam.ConsumeVideo(old(virtualCam), frames).reinits
    {
      if frames == [] || !Usable(frames[0]) {
        virtualCam := CloseCamera(virtualCam);
        return 0, 0;
      }
      var first := frames[0];
      var dims := Dims(first.width, first.height);
      virtualCam := Some(Camera(dims, true));
      sent, reinits := 1, 0;
      var frameCount := 0;
      var currentResolution := dims;
      ghost var v0 := VideoLoop(dims, Camera(dims, true), 0, 0);
      var i := 1;
      while i < |frames|
        invariant 1 <= i <= |frames|
        invariant VideoRun(v0, frames[1..i]) ==
                  VideoLoop(currentResolution, Camera(currentResolution, true), frameCount, reinits)
        invariant virtualCam == Some(Camera(currentResolution, true))
        invariant sent == 1 + frameCount
        invariant pcs == old(pcs) && connectionActive == old(connectionActive) && nextPeer == old(nextPeer)
      {
        VideoRunSnoc(v0, frames, i);
        var frame := frames[i];
        if frame.Image? && frame.width != 0 && frame.height != 0 {
          var size := Dims(frame.width, frame.height);
          if size != currentResolution {
            virtualCam := Some(Camera(size, true));
            currentResolution := size;
            reinits := reinits + 1;
          }
          sent := sent + 1;
          frameCount := frameCount + 1;
        }
        i := i + 1;
      }
      assert frames[1..i] == frames[1..];
      virtualCam := CloseCamera(virtualCam);
    }
  }
}
