/**
 The browser and socket.io objects that the session drives, reduced to
 what the session observes of them and the effects it has on them. Each
 WebRTC or socket call the session makes is recorded, in order: negotiation
 itself, ICE and the network are not modelled.
 */
module Transport {
  import opened Transfer

  datatype Option<T> = None | Some(value: T)

  /** `RTCDataChannel.readyState`. */
  datatype ReadyState = Connecting | Open | Closing | Closed

  /** An SDP offer or answer, kept opaque. */
  datatype SessionDescription = SessionDescription(sdp: string)

  /** An ICE candidate, kept opaque. */
  datatype IceCandidate = IceCandidate(candidate: string)

  /** The `payload` of a `signal` event, decoded by its `type` field. */
  datatype SignalPayload =
    | OfferPayload(offer: SessionDescription)
    | AnswerPayload(answer: SessionDescription)
    | CandidatePayload(candidate: IceCandidate)
    | OtherPayload(kind: string)

  /** An event the session emits to the signaling relay. */
  datatype Emitted = CreateRoom | Signal(roomCode: string, payload: SignalPayload)

  /** A socket.io client socket: where it points, whether `disconnect()` was called, what was emitted. */
  class SignalingSocket {
    const url: string
    var active: bool
    var emitted: seq<Emitted>

    constructor (url: string)
      ensures this.url == url && active && emitted == []
    {
      this.url := url;
      active := true;
      emitted := [];
    }

    method Emit(e: Emitted)
      modifies this`emitted
      ensures emitted == old(emitted) + [e]
    {
      emitted := emitted + [e];
    }

    /** `socket.disconnect()`: stops the socket; calling it again does nothing more. */
    method Disconnect()
      modifies this`active
      ensures !active
    {
      active := false;
    }
  }

  /** An `RTCDataChannel`: its state and the frames sent on it, in order. */
  class DataChannel {
    const channelLabel: string
    var readyState: ReadyState
    var sent: seq<Msg>

    constructor (lbl: string)
      ensures channelLabel == lbl && readyState == Connecting && sent == []
    {
      channelLabel := lbl;
      readyState := Connecting;
      sent := [];
    }

    /** `send` is only legal on an open channel. */
    method Send(m: Msg)
      requires readyState == Open
      modifies this`sent
      ensures sent == old(sent) + [m]
    {
      sent := sent + [m];
    }

    /** The transport reports the channel open. */
    method MarkOpen()
      modifies this`readyState
      ensures readyState == Open
    {
      readyState := Open;
    }
  }

  /** An `RTCPeerConnection`: its configuration and the descriptions and candidates applied to it. */
  class PeerConnection {
    const iceServers: seq<string>
    var localDescriptions: seq<SessionDescription>
    var remoteDescriptions: seq<SessionDescription>
    var candidates: seq<IceCandidate>

    constructor (iceServers: seq<string>)
      ensures this.iceServers == iceServers
      ensures localDescriptions == [] && remoteDescriptions == [] && candidates == []
    {
      this.iceServers := iceServers;
      localDescriptions, remoteDescriptions, candidates := [], [], [];
    }

    method CreateDataChannel(lbl: string) returns (ch: DataChannel)
      ensures fresh(ch) && ch.channelLabel == lbl && ch.readyState == Connecting && ch.sent == []
    {
      ch := new DataChannel(lbl);
    }

    method SetLocalDescription(d: SessionDescription)
      modifies this`localDescriptions
      ensures localDescriptions == old(localDescriptions) + [d]
    {
      localDescriptions := localDescriptions + [d];
    }

    method SetRemoteDescription(d: SessionDescription)
      modifies this`remoteDescriptions
      ensures remoteDescriptions == old(remoteDescriptions) + [d]
    {
      remoteDescriptions := remoteDescriptions + [d];
    }

    method AddIceCandidate(c: IceCandidate)
      modifies this`candidates
      ensures candidates == old(candidates) + [c]
    {
      candidates := candidates + [c];
    }
  }
}
