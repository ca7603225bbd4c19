/**
 The `useWebRTC` composable of InstaDrop's renderer: the state one sender
 keeps about its signaling socket, its peer connection and its data
 channel, the handlers that signaling and WebRTC events run, and
 `sendFile`, which streams one file over the open data channel.

 Each event the composable subscribes to is a method of `Session`; the
 caller of a method is whatever delivers that event. Values that the
 source only awaits from the browser (the SDP offer, the channel's
 `bufferedAmount`, reads of the file) are parameters.
 */
module WebRTC {
  import opened Transfer
  import opened Transport

  /** The signaling relay `connectToServer` connects to. */
  const SignalingUrl: string := "http://localhost:3000"

  /** The one ICE server of `rtcConfig`. */
  const StunServer: string := "stun:stun.hitv.com:3478"

  /** The label of the data channel created on `peer-joined`. */
  const ChannelLabel: string := "instadrop-file"

  class Session {
    // the reactive refs exposed to the UI
    var roomCode: string
    var isConnected: bool
    var isP2PReady: bool

    // the closure-held handles, `null` until first created and never reset
    var socket: SignalingSocket?
    var peerConnection: PeerConnection?
    var dataChannel: DataChannel?

    /** Every data channel this session has created; only these can report `open`. */
    ghost var channels: set<DataChannel>

    /**
     A connection and its channel are created together, and `isP2PReady`
     is only ever raised by a channel's `onopen`, so it implies a channel. */
    ghost predicate Valid()
      reads this
    {
      && (peerConnection == null <==> dataChannel == null)
      && (dataChannel != null ==> dataChannel in channels)
      && (channels == {} <==> dataChannel == null)
      && (isP2PReady ==> dataChannel != null)
    }

    /** The composable's initial state. */
    constructor ()
      ensures Valid()
      ensures roomCode == "" && !isConnected && !isP2PReady
      ensures socket == null && peerConnection == null && dataChannel == null && channels == {}
    {
      roomCode, isConnected, isP2PReady := "", false, false;
      socket, peerConnection, dataChannel := null, null, null;
      channels := {};
    }

    /**
     `connectToServer`: opens a fresh socket to the relay. A socket opened
     earlier is replaced without being disconnected. */
    method ConnectToServer()
      requires Valid()
      modifies this`socket
      ensures Valid()
      ensures fresh(socket) && socket.url == SignalingUrl && socket.active && socket.emitted == []
    {
      socket := new SignalingSocket(SignalingUrl);
    }

    /** The socket's `connect` event: marks the session connected and asks the relay for a room. */
    method OnConnect()
      requires Valid()
      modifies this`isConnected, socket
      ensures Valid() && isConnected
      ensures socket != null ==>
                socket.emitted == old(socket.emitted) + [CreateRoom] && socket.active == old(socket.active)
    {
      isConnected := true;
      if socket != null {
        socket.Emit(CreateRoom);
      }
    }

    /** `room-created`: remembers the code the relay assigned. */
    method OnRoomCreated(code: string)
      requires Valid()
      modifies this`roomCode
      ensures Valid() && roomCode == code
    {
      roomCode := code;
    }

    /**
     `peer-joined`: drops readiness, replaces the connection and the
     channel by fresh ones, applies the offer (`offer` is what
     `createOffer` resolves with) as local description and sends it to the
     room through the relay. */
    method OnPeerJoined(peerId: string, offer: SessionDescription)
      requires Valid()
      modifies this`isP2PReady, this`peerConnection, this`dataChannel, this`channels, socket
      ensures Valid() && !isP2PReady
      ensures fresh(peerConnection) && fresh(dataChannel)
      ensures peerConnection.iceServers == [StunServer]
      ensures peerConnection.localDescriptions == [offer]
      ensures peerConnection.remoteDescriptions == [] && peerConnection.candidates == []
      ensures dataChannel.channelLabel == ChannelLabel && dataChannel.readyState == Connecting && dataChannel.sent == []
      ensures channels == old(channels) + {dataChannel}
      ensures socket != null ==>
                socket.emitted == old(socket.emitted) + [Signal(roomCode, OfferPayload(offer))] &&
                socket.active == old(socket.active)
    {
      isP2PReady := false;
      var pc := new PeerConnection([StunServer]);
      var ch := pc.CreateDataChannel(ChannelLabel);
      peerConnection, dataChannel := pc, ch;
      channels := channels + {ch};
      pc.SetLocalDescription(offer);
      if socket != null {
        socket.Emit(Signal(roomCode, OfferPayload(offer)));
      }
    }

    /**
     The connection's `icecandidate` event: a gathered candidate is sent
     to the room through the relay; the end-of-gathering event (no
     candidate) sends nothing. */
    method OnLocalCandidate(candidate: Option<IceCandidate>)
      requires Valid()
      modifies socket
      ensures Valid()
      ensures socket != null ==>
                socket.emitted == old(socket.emitted) +
                  (if candidate.Some? then [Signal(roomCode, CandidatePayload(candidate.value))] else []) &&
                socket.active == old(socket.active)
    {
      if candidate.Some? && socket != null {
        socket.Emit(Signal(roomCode, CandidatePayload(candidate.value)));
      }
    }

    /**
     The socket's `signal` event: an answer becomes the remote description
     and a candidate is added at once, both only when a connection exists;
     any other payload, or no connection, changes nothing. */
    method OnSignal(payload: SignalPayload)
      requires Valid()
      modifies peerConnection
      ensures Valid()
      ensures peerConnection != null ==>
                && peerConnection.remoteDescriptions == old(peerConnection.remoteDescriptions) +
                     (if payload.AnswerPayload? then [payload.answer] else [])
                && peerConnection.candidates == old(peerConnection.candidates) +
                     (if payload.CandidatePayload? then [payload.candidate] else [])
                && peerConnection.localDescriptions == old(peerConnection.localDescriptions)
    {
      if payload.AnswerPayload? && peerConnection != null {
        peerConnection.SetRemoteDescription(payload.answer);
      } else if payload.CandidatePayload? && peerConnection != null {
        peerConnection.AddIceCandidate(payload.candidate);
      }
    }

    /**
     A channel's `open` event: the channel is open and the session is
     ready. This holds for any channel the session created, including one
     that a later `peer-joined` has already replaced. */
    method OnChannelOpen(ch: DataChannel)
      requires Valid() && ch in channels
      modifies this`isP2PReady, ch
      ensures Valid() && isP2PReady
      ensures ch.readyState == Open && ch.sent == old(ch.sent)
    {
      ch.MarkOpen();
      isP2PReady := true;
    }

    /**
     `disconnectServer`: stops the socket if there is one and clears the
     three flags, whatever they were; the connection and the channel are
     left as they are. Calling it again leaves the same state. */
    method DisconnectServer()
      requires Valid()
      modifies this`roomCode, this`isConnected, this`isP2PReady, socket
      ensures Valid()
      ensures !isConnected && !isP2PReady && roomCode == ""
      ensures socket != null ==> !socket.active && socket.emitted == old(socket.emitted)
    {
      if socket != null {
        socket.Disconnect();
      }
      isConnected := false;
      isP2PReady := false;
      roomCode := "";
    }

    /**
     `sendFile`: streams one file over the data channel and reports how it
     ended. `info` is what `getFileInfo` gives, `read` is `readFileChunk`
     on the same path, and `buffered(i)` is the channel's `bufferedAmount`
     seen by the i-th loop iteration; `drainBy(i)` names an iteration, no
     earlier than i, at which the buffer is at or below the high-water
     mark, so that backpressure always ends.

     The frames appended and the outcome are those of `SendSpec`, which
     does not depend on `buffered`: waiting on backpressure reads nothing,
     sends nothing and leaves the offset where it was. */
    method SendFile(info: InfoResult, read: Reader, buffered: nat -> nat, ghost drainBy: nat -> nat)
      returns (outcome: SendOutcome)
      requires Valid()
      requires info.Info? ==> Progress(read, info.info.size)
      requires forall i: nat :: i <= drainBy(i) && buffered(drainBy(i)) <= HighWaterMark
      modifies dataChannel
      ensures Valid()
      ensures var s := SendSpec(old(dataChannel != null && dataChannel.readyState == Open), info, read);
              && outcome == s.outcome
              && (dataChannel != null ==>
                    dataChannel.sent == old(dataChannel.sent) + s.frames &&
                    dataChannel.readyState == old(dataChannel.readyState))
    {
      var ch := dataChannel;
      if ch == null || ch.readyState != Open {
        return Failed(ChannelNotOpen);
      }
      if info.InfoError? {
        return Failed(InfoFailed(info.reason));
      }
      var name, size := info.info.name, info.info.size;
      ghost var before := ch.sent;
      ch.Send(Meta(name, size));
      outcome := StreamChunks(ch, read, size, buffered, drainBy);
      ghost var plan := PlanFrom(read, size, 0);
      ghost var tail := if outcome == Sent then [Eof] else [];
      assert SendSpec(true, info, read) == Sending([Meta(name, size)] + ChunkFrames(plan.steps) + tail, outcome);
      assert ch.sent == before + ([Meta(name, size)] + ChunkFrames(plan.steps) + tail);
    }
  }

  /**
   The `while (offset < size)` loop of `sendFile` and the final `eof`, on an
   open channel: the chunks of `PlanFrom(read, size, 0)` in order, then `eof`
   if the loop ran to the end. */
  method StreamChunks(ch: DataChannel, read: Reader, size: nat, buffered: nat -> nat, ghost drainBy: nat -> nat)
    returns (outcome: SendOutcome)
    requires ch.readyState == Open
    requires Progress(read, size)
    requires forall i: nat :: i <= drainBy(i) && buffered(drainBy(i)) <= HighWaterMark
    modifies ch`sent
    ensures var plan := PlanFrom(read, size, 0);
            && outcome == plan.outcome
            && ch.sent == old(ch.sent) + LoopFrames(plan)
  {
    var offset: nat := 0;
    var i: nat := 0;
    ghost var target := drainBy(0);
    ghost var done: seq<ReadStep> := [];
    ghost var plan := PlanFrom(read, size, 0);
    while offset < size
      invariant ch.readyState == Open
      invariant ch.sent == old(ch.sent) + ChunkFrames(done)
      invariant PlanContinues(plan, done, read, size, offset)
      invariant i <= target && buffered(target) <= HighWaterMark
      decreases size - offset, target - i
    {
      if buffered(i) > HighWaterMark {
        // wait 50 ms and poll again: nothing is read or sent
        i := i + 1;
      } else {
        var r := read(offset, ChunkSize);
        if r.ReadError? {
          outcome := Failed(ReadFailed(offset, r.reason));
          PlanStopsOnError(plan, done, read, size, offset);
          return;
        }
        ch.Send(Chunk(r.bytes));
        PlanAdvances(plan, done, read, size, offset, r.bytes);
        AppendAssoc(old(ch.sent), ChunkFrames(done), [Chunk(r.bytes)]);
        done := done + [ReadStep(offset, r.bytes)];
        offset := offset + |r.bytes|;
        i := i + 1;
        target := drainBy(i);
      }
    }
    PlanStopsAtEnd(plan, done, read, size, offset);
    ch.Send(Eof);
    AppendAssoc(old(ch.sent), ChunkFrames(done), [Eof]);
    outcome := Sent;
  }
}
