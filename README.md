# InstaDrop peer transfer: a Dafny model of `useWebRTC`

InstaDrop sends files from one device to another over a WebRTC data
channel, using a socket.io relay to set up the connection. The renderer
composable `useWebRTC` is the sending side. It holds three UI flags
(`roomCode`, `isConnected`, `isP2PReady`) and three handles (the socket,
the peer connection and the data channel). Relay and WebRTC events update
them. `sendFile` streams one file over the open channel: a JSON `meta`
frame, 64 KiB binary chunks, then an `eof` frame. While the channel's
`bufferedAmount` is above 1 MiB, it waits instead of reading.

The project has three modules:

- `Transfer` (`transfer.dfy`): the channel frames (`Meta`, `Chunk`, `Eof`)
  and `SendSpec`, a pure specification of what one `sendFile` call appends
  to the channel and how it ends. The send loop's reads are the plan
  `PlanFrom`. The lemmas prove the properties of the frames and reads.
  The file is reached through two abstract collaborators. `InfoResult` is
  what `getFileInfo` gives. `Reader` is `readFileChunk(offset, length)`,
  which may fail. Only the types of these two calls are declared. The
  model assumes that `readFileChunk` slices the file, and `FileReader(file)`
  is that slicing reader over a byte sequence.
- `Transport` (`transport.dfy`): the socket, `RTCPeerConnection` and
  `RTCDataChannel`. These objects only record what the session does to
  them: frames sent, events emitted, and descriptions and candidates
  applied.
- `WebRTC` (`session.dfy`): the `Session` class. It has one method per
  event handler, plus `SendFile` and its loop `StreamChunks`. `SendFile` is
  proved to append exactly `SendSpec`'s frames.

How the model represents the parts of the environment it does not implement:

- Relay events become method calls, and the caller of each method stands
  for the socket or channel that fires the event.
- `createOffer`'s result is a parameter of `OnPeerJoined`.
- `bufferedAmount` is an oracle `buffered(i)`, indexed by loop iteration.
  That the buffer eventually drains is a precondition: the ghost witness
  `drainBy` names, for every iteration, a later one at which the buffer is
  at or below 1 MiB.
- The precondition `Progress` asks for a non-empty result from every
  successful read at an offset below `size`. That is enough for the send
  loop to end, though the loop needs it only at the offsets it visits. An
  empty read at one of those offsets would make the source loop forever,
  sending empty chunks. `FileReaderProgress` proves that the file reader
  meets `Progress`.
- Backpressure does not affect what is sent. `SendSpec` has no `buffered`
  parameter, and `SendFile`'s postcondition equates the frames it appends
  with `SendSpec`. A waiting iteration reads nothing, sends nothing and
  keeps the offset.
- Candidates from the relay are applied at once when a peer connection
  exists and are dropped otherwise. No candidate is buffered.

## Model

| member | source | states |
|---|---|---|
| `Transfer.ReadFileChunk` | src/renderer/src/env.d.ts:17 | the slicing the model assumes of `readFileChunk`, in its declared shape: a read returns at most the requested length, exactly the file's bytes from the offset, shorter only at the end of the file and empty past it |
| `Transfer.FileReaderProgress` | src/renderer/src/env.d.ts:17 | reading the file itself never returns an empty chunk before its end, so the send loop's progress precondition holds |
| `Transfer.PlanStepsAreReads` | src/renderer/src/composables/useWebRTC.ts:94-96 | every chunk of the loop is exactly what `readFileChunk` returned when asked for 64 KiB at that chunk's offset, neither cut nor merged |
| `Transfer.PlanStartsAt` | src/renderer/src/composables/useWebRTC.ts:87-89 | the first read is at the starting offset, and happens only if that offset is below `size` |
| `Transfer.PlanOffsetsAdvance` | src/renderer/src/composables/useWebRTC.ts:89-96 | every read is at an offset from the start up to `size`, gets a non-empty chunk, and the next read is exactly at the previous offset plus the previous chunk's length |
| `Transfer.PlanEnds` | src/renderer/src/composables/useWebRTC.ts:89-103 | the loop ends normally only once the offset has reached `size`; a failing read ends it at the offset after the last chunk, still below `size`, and the send fails only because `readFileChunk` rejected at that offset, carrying its reason |
| `Transfer.FilePlanReassembles` | src/renderer/src/composables/useWebRTC.ts:86-97 | reading a whole file always completes, each chunk is at most 64 KiB, and the chunks concatenate to the file's bytes |
| `Transfer.SendRejectsBeforeSending` | src/renderer/src/composables/useWebRTC.ts:78-83 | with no open channel, or when `getFileInfo` fails, nothing is sent and the call fails, with `ChannelNotOpen` exactly when the channel is not open |
| `Transfer.SentLogShape` | src/renderer/src/composables/useWebRTC.ts:84-99 | a successful send appends `meta {name,size}`, then only chunks (the reads, in order), then one `eof`, and the chunk bodies are the bytes read, at least `size` of them |
| `Transfer.FailedReadLog` | src/renderer/src/composables/useWebRTC.ts:94-103 | a failing read leaves `meta` and the chunks read before it on the channel, with no `eof`; it fails at the offset equal to the bytes already sent, below `size`, where `readFileChunk` rejected, and with that rejection's reason |
| `Transfer.EmptyFileLog` | src/renderer/src/composables/useWebRTC.ts:84-99 | a zero-size file is sent as `meta` then `eof`, with no chunk |
| `Transfer.FileSendDeliversFile` | src/renderer/src/composables/useWebRTC.ts:84-99 | sending a whole file appends a transfer log that announces its name and size, every chunk at most 64 KiB, and the chunk bodies are exactly the file's bytes |
| `WebRTC.Session.constructor` | src/renderer/src/composables/useWebRTC.ts:5-11 | the flags start empty and false, and there is no socket, connection or channel |
| `WebRTC.Session.ConnectToServer` | src/renderer/src/composables/useWebRTC.ts:17-19 | a fresh socket to `http://localhost:3000` replaces any earlier one; nothing else changes |
| `WebRTC.Session.OnConnect` | src/renderer/src/composables/useWebRTC.ts:21-24 | `connect` sets `isConnected` and emits `create-room`; nothing else changes |
| `WebRTC.Session.OnRoomCreated` | src/renderer/src/composables/useWebRTC.ts:26-28 | `room-created` sets `roomCode` to the received code; nothing else changes |
| `WebRTC.Session.OnPeerJoined` | src/renderer/src/composables/useWebRTC.ts:30-56 | `peer-joined` clears `isP2PReady` and installs a fresh connection (STUN server set) and a fresh `instadrop-file` channel, not yet open; the offer becomes the local description and is signalled to the room |
| `WebRTC.Session.OnLocalCandidate` | src/renderer/src/composables/useWebRTC.ts:47-51 | a gathered local candidate is signalled to the current room; the end-of-gathering event emits nothing |
| `WebRTC.Session.OnSignal` | src/renderer/src/composables/useWebRTC.ts:58-65 | with a connection, an answer is applied as the remote description and a candidate is added at once; any other payload, or no connection, changes nothing |
| `WebRTC.Session.OnChannelOpen` | src/renderer/src/composables/useWebRTC.ts:42-45 | a channel's `onopen` marks that channel open, keeps what was sent on it, and sets `isP2PReady`, for any channel the session created, including a replaced one |
| `WebRTC.Session.DisconnectServer` | src/renderer/src/composables/useWebRTC.ts:68-73 | whatever the prior state, the socket (if any) is stopped, `isConnected` and `isP2PReady` are false and `roomCode` is empty, so a second call changes nothing; the connection and the channel are kept |
| `WebRTC.Session.SendFile` | src/renderer/src/composables/useWebRTC.ts:76-105 | the outcome and the frames appended to the channel are those of `SendSpec`, whatever the backpressure: on a missing or not-open channel it fails having sent nothing |
| `WebRTC.StreamChunks` | src/renderer/src/composables/useWebRTC.ts:86-99 | the loop sends exactly the planned chunks in order and then `eof` if it reached the end; a waiting iteration changes nothing |

## Left out

- The socket.io transport. Relay events are method calls. There is no
  reconnection, and no handler for the socket's `disconnect` event
  (the source has none). `socket.emit` is an append to a log.
- RTCPeerConnection and ICE internals. This covers offer creation, the
  contact with the STUN server, and the `iceconnectionstatechange`
  handler, which only logs. A channel reaches `open` only through
  `OnChannelOpen`. Closing, errors and other `readyState` changes are not
  modelled.
- Asynchronous interleaving. Each handler runs atomically. In the source,
  other handlers can run at every `await`: inside `peer-joined`, inside
  `signal`, and between iterations of the send loop.
- WebRTC.Session.SendFile: the reader is a fixed function of offset and
  length, so it returns the same result every time it is asked. A run of
  the source where a read at some offset comes back empty, the loop
  retries, and a later read there returns bytes, cannot be represented. It
  is excluded together with the empty read by `Progress`.
- WebRTC.Session.SendFile: binds the channel once, when the call starts.
  The source re-reads its `dataChannel` variable at every send. A
  `peer-joined` during a transfer would make the source send to the new,
  not-yet-open channel, which throws, and the promise rejects. That
  interleaving is not modelled.
- Failures of `dataChannel.send`, of `createOffer` and
  `setLocalDescription`, and of `setRemoteDescription` or
  `addIceCandidate`. The channel stays open for the whole call, and the
  browser's rejections of those promises are not modelled.
- WebRTC.Session.OnPeerJoined: always sets the local description and
  emits the offer. In the source, if `createOffer` or `setLocalDescription`
  rejects, the handler stops before emitting the offer. The new connection
  and channel are installed by then.
- The 50 ms `setTimeout` wait. It is one iteration that only advances the
  poll index. Wall-clock time is not modelled.
- The JSON text of the `meta` and `eof` frames. They are the values `Meta`
  and `Eof`.
- The file path. `getFileInfo` and `readFileChunk` appear as the `info`
  result and the `read` function, already bound to the path. File sizes
  are unbounded `nat`s, not JavaScript numbers.
- The `type` field of a `signal` payload. The model receives it already
  decoded into `OfferPayload`, `AnswerPayload`, `CandidatePayload` or
  `OtherPayload`.
- The `onUnmounted` hook, which calls `disconnectServer`, and console
  logging.
- This code has no candidate buffering before a remote description, no
  identity handshake, no transfer request or response, no `eof-ack`, no
  connect watchdog, no pause or cancel, and no receive side, so none is
  modelled. For example, candidates are applied at once or dropped.
- The Electron bridge behind `getFileInfo` and `readFileChunk`.
  src/preload/index.ts:5-10 exposes neither call, and src/main/index.ts
  registers no handler for them. As the repository stands, `getFileInfo`
  is undefined, so `sendFile` on an open channel rejects at
  src/renderer/src/composables/useWebRTC.ts:83; the model reaches that case
  only as `InfoError`. The slicing behaviour of `FileReader` is what the
  model assumes of an implementation of `readFileChunk`.
- src/main/index.ts, src/preload/index.ts, src/renderer/src/main.ts,
  src/renderer/src/utils/platform.ts,
  src/renderer/src/store/localStorageRead.ts and capacitor.config.ts.
  These are not part of this model: they hold Electron/Vue plumbing, an IPC
  bridge, platform checks, storage reads and static configuration.
  src/renderer/src/env.d.ts
  contributes only the shape of `getFileInfo` and `readFileChunk`.
- WebRTC.Session.OnChannelOpen: the model keeps only the invariant that
  `isP2PReady` implies a channel exists. It does not claim that
  `isP2PReady` implies the current channel is open. That stronger claim
  fails in the source: `onopen` from a channel that a later `peer-joined`
  has replaced still sets `isP2PReady`.
