# PhoneCam desktop receivers: NAL splitting and single-connection admission

This project is a Dafny model of two parts of the PhoneCam desktop receivers.

**The Annex B start-code splitter.** Both TCP receivers contain the same code:
`RTSPServer` in `desktop/receiver/rtsp_receiver.py` and `StreamServer` in
`desktop/receiver/rtsp_receiver_gui.py`. The model holds it once:

- `AnnexB` has the first-occurrence scan `_find_start_code` in two forms. `StartCodeFrom` is the specification function. `FindStartCode` is the loop, proved equal to it.
- `AnnexB.Extract` is one run of the inner `while True` loop, written as a function.
- `NalReceiver.ClientStream` is the per-connection state: the `bytearray` buffer and the `bytes_received` counter. Its `Receive` method runs the imperative extraction loop.
- `NalReceiver.HandleClient` is the read loop of one connection, from accept to the first empty read.

Only the four-byte start code `00 00 00 01` delimits units. H.264 Annex B (section B.1) also allows the three-byte form `00 00 01`, but the receivers do not split on it. A `zero_byte` before a start code stays at the end of the previous unit. Bytes that arrive before any start code stay in the buffer. They are dropped only when the first unit is cut. Neither receiver looks for an in-band control record, so any such bytes stay inside the surrounding NAL unit.

**The WebRTC receiver's admission state machine.** This is in `desktop/receiver/server_highquality.py`:

- `Admission.ServerState` holds the module globals `pcs`, `connection_active` and `virtual_cam`. The pure step functions `OfferStep`, `StateChangeStep`, `ShutdownStep` and `ConsumeStep` say how the handlers change them.
- `Admission.Server` is a class with those globals as fields. Its methods are proved against the step functions.
- `VirtualCam` models the resolution tracking of `consume_video` over frame dimensions.

Peer connections are ids handed out in creation order. Whether the SDP exchange succeeds is a parameter. Handlers run one at a time.

## Model

| member | source | states |
|---|---|---|
| `AnnexB.StartCodeFrom` | desktop/receiver/rtsp_receiver.py:240-246 | The result is -1 exactly when no start code begins at or after `start`. Otherwise it is the least `i >= start` where `00 00 00 01` begins, and `i + 4 <= len(data)`. So a start past `len(data) - 4` gives -1. The same code is at rtsp_receiver_gui.py:227-231. |
| `AnnexB.FindStartCode` | desktop/receiver/rtsp_receiver_gui.py:227-231 | The scan loop returns the first start code at or after `start`, or -1. Its loop invariant is that the answer from `i` equals the answer from `start`. |
| `AnnexB.Extract` | desktop/receiver/rtsp_receiver.py:199-213 | The definition of one pass of the extraction loop. Find the first start code, then the next one from four bytes later. If both are found, cut out the unit between them, start code included, and carry on from the second. Otherwise stop and keep the buffer. The lemmas below prove its properties. |
| `AnnexB.CutIsNalUnit` | desktop/receiver/rtsp_receiver_gui.py:195-202 | With `start` and `next_start` found as the loop finds them, `next_start >= start + 4`. The cut `buffer[start:next_start]` begins with the start code and holds no other one. Offsets 1 to 3, which the second search skips, cannot hold one. |
| `AnnexB.ExtractedUnitsAreNalUnits` | desktop/receiver/rtsp_receiver.py:205-212 | Every unit one pass extracts is at least 4 bytes long. It begins with `00 00 00 01` and holds the start code only at offset 0. |
| `AnnexB.NothingExtractedIff` | desktop/receiver/rtsp_receiver_gui.py:195-200 | A pass extracts no unit if and only if the buffer holds at most one start code. In that case the buffer is left unchanged. |
| `AnnexB.ExtractRest` | desktop/receiver/rtsp_receiver.py:206-213 | After a pass the buffer holds at most one start code, so the loop stops only then. When units were cut, the remaining buffer begins with a start code and is strictly shorter than before. |
| `AnnexB.ExtractConservation` | desktop/receiver/rtsp_receiver.py:201-213 | The units of a pass, concatenated with the remaining buffer, equal the pre-pass buffer minus the bytes before its first start code. With no unit cut, nothing is dropped. |
| `AnnexB.ExtractAppend` | desktop/receiver/rtsp_receiver.py:194-213 | Chunking. A pass over `x + y` gives the units of a pass over `x`, followed by the units of a pass over what `x` left plus `y`. It leaves the same buffer. A unit, once emitted, is never taken back. |
| `AnnexB.StartCodeFromPrefix` | desktop/receiver/rtsp_receiver.py:242-245 | Bytes appended to the buffer do not move a start code the scan already found. |
| `NalReceiver.ClientStream.constructor` | desktop/receiver/rtsp_receiver.py:178-180 | Each connection starts with an empty buffer and a zero byte counter, so no bytes carry over between connections. |
| `NalReceiver.ClientStream.Receive` | desktop/receiver/rtsp_receiver_gui.py:190-203 | After `buffer.extend(data)` and the extraction loop, the units returned and the new buffer are exactly one pass over the old buffer plus `data`. The counter grows by exactly `len(data)`. The loop's termination measure is the buffer length. The same code is at rtsp_receiver.py:194-213. |
| `NalReceiver.ClientStream.ReportStats` | desktop/receiver/rtsp_receiver_gui.py:209-215 | A stats report reads `bytes_received` and resets it to 0, leaving the buffer alone. rtsp_receiver.py:220-226 resets the counter the same way. |
| `NalReceiver.Delivered` | desktop/receiver/rtsp_receiver.py:190-192 | The reads a connection processes are those before the first empty read, which signals a disconnect. |
| `NalReceiver.HandleClient` | desktop/receiver/rtsp_receiver.py:178-213 | A connection's whole receive loop hands the decoder the same units, in the same order, as one pass over the entire delivered byte stream. This holds however the stream was split into reads. The partial unit left at disconnect is the pass's remaining buffer. |
| `VirtualCam.VideoStep` | desktop/receiver/server_highquality.py:102-143 | One turn of the frame loop. A missing or empty frame changes nothing. A usable frame is sent and sets `current_resolution` to its size. The camera is reopened exactly when that size differs from the previous one. An open camera of the current size stays one of the new current size. |
| `VirtualCam.VideoRun` | desktop/receiver/server_highquality.py:102-143 | The frame loop over a run of frames. At most one frame is sent per frame received. There are never more reopenings than frames sent. |
| `VirtualCam.ConsumeVideo` | desktop/receiver/server_highquality.py:66-152 | The consumer from first `recv()` to the end of the track. It sends at most one frame per frame received. When any frame is sent, there are fewer reopenings than frames sent; otherwise there are none. Any camera it leaves in the global is closed. The global is None afterwards exactly when it was None before and no camera was opened. |
| `VirtualCam.VideoRunTracksResolution` | desktop/receiver/server_highquality.py:102-143 | Over any run of frames, `current_resolution` ends as the size of the last usable frame, or stays unchanged if there is none. `frame_count` grows by one per usable frame. The camera is closed and reopened exactly once per change of size. Null and zero-dimension frames change nothing. |
| `VirtualCam.VideoRunKeepsCameraInSync` | desktop/receiver/server_highquality.py:119-136 | The open camera always has the size `current_resolution`, so every frame is sent to a camera of its own size. |
| `VirtualCam.SteadyStreamNeverReopens` | desktop/receiver/server_highquality.py:119 | If every usable frame keeps the current size, the camera is never reopened and stays the same. |
| `VirtualCam.ConsumeVideoOutcome` | desktop/receiver/server_highquality.py:66-152 | No camera is opened when the track ends first, or when the first frame is missing or empty. Then only a camera already in the global is closed. Otherwise every usable frame is sent and the camera ends at the last usable size, reopened once per size change. When the track ends it is closed but stays in `virtual_cam`. |
| `Admission.OfferStep` | desktop/receiver/server_highquality.py:164-182 | The answer is 503 exactly when `connection_active` is set, and then nothing changes. With the flag clear, a body that is not JSON or lacks "sdp" gives 500 and changes nothing. A body with "sdp" always admits: one new peer is appended to `pcs` and the flag is set. The answer is 200 exactly when the SDP exchange succeeds. Any change leaves the camera alone. An answered offer's peer is the one appended. |
| `Admission.OfferKeepsSingleConnection` | desktop/receiver/server_highquality.py:168-182 | Under the invariant that `pcs` has at most one peer and the flag is set exactly when it has one, an offer keeps the invariant. It is refused with 503 exactly when a peer is live. |
| `Admission.RemoveFirst` | desktop/receiver/server_highquality.py:191-192 | `pcs.remove(pc)` on a list holding `pc` drops its first occurrence and keeps the other peers in their order. The length drops by one and the multiset loses one `pc`. Without `pc` the list is unchanged. |
| `Admission.StateChangeStep` | desktop/receiver/server_highquality.py:184-192 | The callback as written. A state other than "failed" or "closed" changes nothing. On "failed" or "closed" the flag is cleared whether or not the peer is listed, and one occurrence of the peer leaves `pcs`. The camera and the id counter never change. |
| `Admission.GuardedStateChangeStep` | desktop/receiver/server_highquality.py:188-192 | The corrected callback. The flag is cleared exactly when a listed peer reports "failed" or "closed", and in that case one occurrence of the peer leaves `pcs`. Nothing else changes. |
| `Admission.ConsumeStep` | desktop/receiver/server_highquality.py:66-152 | A finished video track changes only `virtual_cam`, never `pcs` or the flag. A camera left in the global is closed. The global is None afterwards exactly when it was None before and no camera was opened, because the track ended first or its first frame was missing or empty. |
| `Admission.StateChangeKeepsSingleConnection` | desktop/receiver/server_highquality.py:184-192 | The callback as written keeps the invariant for non-terminal states and for listed peers. It also keeps it when no connection is active. |
| `Admission.StaleEndBreaksSingleConnection` | desktop/receiver/server_highquality.py:188-192 | The exception. A "failed" or "closed" from a peer no longer in `pcs` clears the flag while another peer is live. The next offer is then admitted, leaving two peers. |
| `Admission.StaleCloseTrace` | desktop/receiver/server_highquality.py:164-192 | A concrete event sequence from start-up reaches that state: offer, peer 0 failed, offer, peer 0 closed, offer. It ends with `pcs == [1, 2]`. The guarded callback keeps the invariant on the same sequence. |
| `Admission.GuardedStateChangeKeepsSingleConnection` | desktop/receiver/server_highquality.py:188-192 | The corrected callback releases the connection only for a listed peer, and keeps the invariant for every event. For listed peers and non-terminal states it agrees with the callback as written. |
| `Admission.GuardedRunKeepsSingleConnection` | desktop/receiver/server_highquality.py:164-192 | With the corrected callback, every sequence of offers, state changes, shutdowns and video tracks keeps the invariant: at most one peer, with the flag set exactly when one is live. |
| `Admission.StepKeepsWellFormed` | desktop/receiver/server_highquality.py:179-192 | Every handler keeps the ids in `pcs` distinct and already issued. |
| `Admission.RunKeepsWellFormed` | desktop/receiver/server_highquality.py:164-237 | The same holds for any sequence of events, with either callback. |
| `Admission.ShutdownStep` | desktop/receiver/server_highquality.py:225-237 | After `on_shutdown`, `pcs` is empty, `connection_active` is false and `virtual_cam` is None. The single-connection invariant then holds. |
| `Admission.Server.constructor` | desktop/receiver/server_highquality.py:61-63 | At module load there are no peers, no active connection and no camera. |
| `Admission.Server.Offer` | desktop/receiver/server_highquality.py:164-212 | The handler's new globals and response are those of `OfferStep`. Invalid JSON or a missing "sdp" field gives 500 with nothing changed. A failed SDP exchange gives 500 with the peer already admitted. |
| `Admission.Server.OnConnectionStateChange` | desktop/receiver/server_highquality.py:184-192 | The callback as written matches `StateChangeStep`. On "failed" or "closed" it clears the flag, and removes the peer if listed. Other states change nothing. |
| `Admission.Server.OnShutdown` | desktop/receiver/server_highquality.py:225-237 | It closes every listed peer, and the camera if there is one. Then it leaves the globals as `ShutdownStep` says. |
| `Admission.Server.Status` | desktop/receiver/server_highquality.py:215-222 | It reports the peer count and the flag. `camera_active` is true exactly when `virtual_cam` is not None. |
| `Admission.Server.ConsumeVideo` | desktop/receiver/server_highquality.py:66-152 | The frame loop leaves `virtual_cam` and returns the send and reopen counts, all as `VirtualCam.ConsumeVideo` says. No other global changes. |

## Findings

| source | as written | input that shows it | evidently intended | confidence | as-written member | corrected member |
|---|---|---|---|---|---|---|
| desktop/receiver/server_highquality.py:188-192 | The callback clears `connection_active` on "failed" or "closed" from any peer, including one already removed from `pcs`. | Peer 0 fails and is removed. Peer 1 is admitted. Peer 0 then reports "closed". The flag is now false while peer 1 is live, and the next offer is admitted, so `pcs == [1, 2]`. | Only a peer still listed in `pcs` should release the single connection. | Low, not executed. It needs the WebRTC library to report a terminal state for a peer after it was removed. | `Admission.StaleCloseTrace` | `Admission.GuardedRunKeepsSingleConnection` |

`Admission.Server.OnConnectionStateChange` models the callback as written. The event-sequence model `Admission.Run` takes either callback. The invariant is proved for the corrected one (`GuardedStateChangeStep`).

Other behaviour of the source that the model reproduces as written:

- A failed SDP exchange leaves `connection_active` set. Every later offer then gets 503 until that peer reports "failed" or "closed", or the server shuts down.
- `consume_video` closes the camera when the track ends but never clears `virtual_cam`, so `/status` keeps reporting `camera_active`.
- At line 86, `consume_video` replaces a camera left by an earlier track without closing it.
- A buffer with no start code is never trimmed, so junk bytes before the first start code accumulate.

## Left out

- H.264 decoding (`H264Decoder`, `H264StreamDecoder`, `NvdecH264Decoder`, the `get_decoder` patch) is a foreign codec library. Units are returned in order instead of being decoded.
- Virtual camera output (pyvirtualcam, `VirtualCameraOutput`, `VirtualCamera`, `cv2.resize`) is a foreign library. A camera is reduced to its size and an open flag. Failures while creating it are not modelled.
- Sockets, the asyncio and thread servers, accept and read timeouts (a timeout reads nothing and retries), the `running` and `client_connected` flags, `_get_local_ip` and the aiohttp/aiortc SDP exchange are network I/O. The SDP exchange is a success flag.
- Mbps and FPS figures and wall-clock timing are floating point and real time. The caller of `ReportStats` decides when a report is due.
- NalReceiver.HandleClient: in the GUI receiver, a failing camera call ends the connection. `VirtualCamera.send` (rtsp_receiver_gui.py:88-93) catches nothing. So an error from `import cv2`, `cv2.resize` or `camera.send`, called at line 207, leaves the extraction loop for the handler at line 217. That ends the connection mid-pass, and the complete units still in the buffer are dropped. One such case is a stream not at 1920x1080 with `cv2` not installed. The model treats the camera as unable to fail, so it promises every unit of one pass over the delivered stream.
- Admission.ConsumeStep: `consume_video` runs as its own task (server_highquality.py:198) and suspends at each `await track.recv()` (lines 75 and 103), so it interleaves with the other handlers. The model applies a whole track as one atomic event. It therefore does not capture these cases. `on_shutdown` can set `virtual_cam` to None (line 237) while the consumer is still looping, and the consumer's next `send` (line 142) or `close` (line 124) then fails on None. Two consumers can also assign the same global.
- The race between the check at line 168 and the set at line 181 of `offer`, across the `await` at line 175, is left out. Handlers are modelled as atomic, so two concurrent offers both being admitted is not captured.
- Peer closing in `on_shutdown` is modelled as done at once. Connection-state events that closing may trigger later are separate events.
- `consume_audio`, the `track` and `ended` callbacks, and the camera's device name in `/status` only log or dispatch, and are not modelled.
- The contiguity test on the first frame and `np.ascontiguousarray` are not modelled. A frame is usable exactly when it is present and has no zero dimension.
- AnnexB.FindStartCode: `start` is a natural number. The receivers only pass 0 or a found index plus 4, so Python's negative indexing is never reached and is not modelled.
- desktop/receiver/server_gui.py, desktop/receiver/server.py, desktop/receiver/server_mjpeg.py, desktop/receiver/test_decoders.py and `PhoneCamGUI` are not part of this model. They are UI, plain WebRTC plumbing or a codec probe.
- The sender app, orientation debouncing, parameter-set re-emission and rotation control records are not part of this model. No receiver file contains them.
