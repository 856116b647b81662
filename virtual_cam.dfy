/** Resolution tracking of the WebRTC receiver's video consumer
    (`consume_video` in server_highquality.py): the virtual camera is opened at
    the first frame's size and closed and reopened whenever a usable frame
    arrives at another size. Frames and the camera are abstracted to their
    dimensions; pixel data, pixel format and frame rate are not modelled. */
module VirtualCam {
  import opened Options

  datatype Dims = Dims(width: nat, height: nat)

  /** A virtual camera device opened at a given size; `open` is false once
      `close()` has been called on it. */
  datatype Camera = Camera(dims: Dims, open: bool)

  /** What `track.recv()` gives: no frame, or an image of the given size. */
  datatype Frame = NoFrame | Image(width: nat, height: nat)

  /** A frame the consumer sends on: present and with no zero dimension
      (a zero dimension is exactly an empty pixel array). */
  predicate Usable(f: Frame)
  {
    f.Image? && f.width > 0 && f.height > 0
  }

  function DimsOf(f: Frame): Dims
    requires f.Image?
  {
    Dims(f.width, f.height)
  }

  /** The state of the consumer's frame loop: `current_resolution`, the camera,
      `frame_count` and the number of close-and-reopen events so far. */
  datatype VideoLoop = VideoLoop(resolution: Dims, cam: Camera, frameCount: nat, reinits: nat)

  /** One turn of the frame loop. */
  function VideoStep(v: VideoLoop, f: Frame): (r: VideoLoop)
    ensures !Usable(f) ==> r == v
    ensures Usable(f) ==> r.resolution == DimsOf(f) && r.frameCount == v.frameCount + 1
    ensures r.reinits == v.reinits + (if Usable(f) && DimsOf(f) != v.resolution then 1 else 0)
    ensures v.cam == Camera(v.resolution, true) ==> r.cam == Camera(r.resolution, true)
  {
    if !Usable(f) then v
    else if DimsOf(f) != v.resolution then
      VideoLoop(DimsOf(f), Camera(DimsOf(f), true), v.frameCount + 1, v.reinits + 1)
    else
      v.(frameCount := v.frameCount + 1)
  }

  /** The frame loop over the frames received in order. */
  function VideoRun(v: VideoLoop, frames: seq<Frame>): (r: VideoLoop)
    ensures v.frameCount <= r.frameCount <= v.frameCount + |frames|
    ensures v.reinits <= r.reinits <= v.reinits + (r.frameCount - v.frameCount)
  {
    if frames == [] then v
    else VideoStep(VideoRun(v, frames[..|frames| - 1]), frames[|frames| - 1])
  }

  /** The sizes of the usable frames, in arrival order. */
  function UsableDims(frames: seq<Frame>): (ds: seq<Dims>)
    ensures |ds| <= |frames|
  {
    if frames == [] then []
    else if Usable(frames[0]) then [DimsOf(frames[0])] + UsableDims(frames[1..])
    else UsableDims(frames[1..])
  }

  /** The size in force after a run of sizes that starts from `d`. */
  function LastDims(d: Dims, ds: seq<Dims>): Dims
  {
    if ds == [] then d else ds[|ds| - 1]
  }

  /** How many times a run of sizes starting from `d` differs from the size before. */
  function Changes(d: Dims, ds: seq<Dims>): nat
    decreases |ds|
  {
    if ds == [] then 0
    else (if ds[0] != d then 1 else 0) + Changes(ds[0], ds[1..])
  }

  /** The consumer as a whole, from the first `recv()` to the end of the track:
      the camera left in the server's global, the frames sent, and the
      close-and-reopen events. */
  datatype Consumed = Consumed(cam: Option<Camera>, sent: nat, reinits: nat)

  /** Closing in the `finally` block: whatever camera the global holds is closed
      but stays in the global. */
  function CloseCamera(cam: Option<Camera>): Option<Camera>
  {
    if cam.Some? then Some(cam.value.(open := false)) else None
  }

  function ConsumeVideo(cam0: Option<Camera>, frames: seq<Frame>): (r: Consumed)
    ensures r.sent <= |frames| && (r.sent == 0 ==> r.reinits == 0) && (r.sent > 0 ==> r.reinits < r.sent)
    ensures r.cam.Some? ==> !r.cam.value.open
    ensures r.cam.None? <==> cam0.None? && (frames == [] || !Usable(frames[0]))
  {
    if frames == [] || !Usable(frames[0]) then
      // the track ended before a first frame, the first frame was missing
      // (converting it raises) or it was empty: no camera is opened
      Consumed(CloseCamera(cam0), 0, 0)
    else
      var d := DimsOf(frames[0]);
      var v := VideoRun(VideoLoop(d, Camera(d, true), 0, 0), frames[1..]);
      Consumed(CloseCamera(Some(v.cam)), 1 + v.frameCount, v.reinits)
  }

  /** One more turn of the frame loop extends the run by the next frame. */
  lemma VideoRunSnoc(v: VideoLoop, frames: seq<Frame>, i: nat)
    requires 1 <= i < |frames|
    ensures VideoRun(v, frames[1..i + 1]) == VideoStep(VideoRun(v, frames[1..i]), frames[i])
  {
    assert frames[1..i + 1][..i - 1] == frames[1..i];
  }

  lemma UsableDimsSnoc(frames: seq<Frame>, f: Frame)
    ensures UsableDims(frames + [f]) == UsableDims(frames) + (if Usable(f) then [DimsOf(f)] else [])
  {
    if frames == [] {
      assert [] + [f] == [f];
    } else {
      assert (frames + [f])[1..] == frames[1..] + [f];
      UsableDimsSnoc(frames[1..], f);
    }
  }

  lemma {:induction false} ChangesSnoc(d: Dims, ds: seq<Dims>, x: Dims)
    ensures Changes(d, ds + [x]) == Changes(d, ds) + (if x != LastDims(d, ds) then 1 else 0)
    decreases |ds|
  {
    if ds == [] {
      assert [] + [x] == [x];
      assert Changes(d, [x]) == (if x != d then 1 else 0) + Changes(x, []);
    } else {
      assert (ds + [x])[1..] == ds[1..] + [x];
      ChangesSnoc(ds[0], ds[1..], x);
      assert LastDims(ds[0], ds[1..]) == LastDims(d, ds);
    }
  }

  /** Over any run of frames: the resolution is that of the last usable frame
      (unchanged when there is none), one frame is sent per usable frame, and the
      camera is closed and reopened exactly once per change of size; missing and
      empty frames change nothing. */
  lemma {:induction false} VideoRunTracksResolution(v: VideoLoop, frames: seq<Frame>)
    ensures VideoRun(v, frames).resolution == LastDims(v.resolution, UsableDims(frames))
    ensures VideoRun(v, frames).frameCount == v.frameCount + |UsableDims(frames)|
    ensures VideoRun(v, frames).reinits == v.reinits + Changes(v.resolution, UsableDims(frames))
  {
    if frames != [] {
      var init, f := frames[..|frames| - 1], frames[|frames| - 1];
      assert frames == init + [f];
      VideoRunTracksResolution(v, init);
      UsableDimsSnoc(init, f);
      if Usable(f) {
        ChangesSnoc(v.resolution, UsableDims(init), DimsOf(f));
      } else {
        assert UsableDims(frames) == UsableDims(init);
      }
    }
  }

  /** The camera always matches `current_resolution` and stays open while frames
      flow, so every frame is sent to a camera of its own size. */
  lemma {:induction false} VideoRunKeepsCameraInSync(v: VideoLoop, frames: seq<Frame>)
    requires v.cam == Camera(v.resolution, true)
    ensures VideoRun(v, frames).cam == Camera(VideoRun(v, frames).resolution, true)
  {
    if frames != [] {
      VideoRunKeepsCameraInSync(v, frames[..|frames| - 1]);
    }
  }

  /** A stream whose usable frames all keep the current size never reopens the camera. */
  lemma SteadyStreamNeverReopens(v: VideoLoop, frames: seq<Frame>)
    requires forall k :: 0 <= k < |frames| && Usable(frames[k]) ==> DimsOf(frames[k]) == v.resolution
    ensures VideoRun(v, frames).reinits == v.reinits
    ensures VideoRun(v, frames).cam == v.cam
  {
    VideoRunTracksResolution(v, frames);
    SteadyDims(v.resolution, frames);
    NoChanges(v.resolution, UsableDims(frames));
    SteadyCamera(v, frames);
  }

  lemma {:induction false} SteadyDims(d: Dims, frames: seq<Frame>)
    requires forall k :: 0 <= k < |frames| && Usable(frames[k]) ==> DimsOf(frames[k]) == d
    ensures forall k :: 0 <= k < |UsableDims(frames)| ==> UsableDims(frames)[k] == d
  {
    if frames != [] {
      SteadyDims(d, frames[1..]);
    }
  }

  lemma {:induction false} NoChanges(d: Dims, ds: seq<Dims>)
    requires forall k :: 0 <= k < |ds| ==> ds[k] == d
    ensures Changes(d, ds) == 0
  {
    if ds != [] {
      NoChanges(d, ds[1..]);
    }
  }

  lemma {:induction false} SteadyCamera(v: VideoLoop, frames: seq<Frame>)
    requires forall k :: 0 <= k < |frames| && Usable(frames[k]) ==> DimsOf(frames[k]) == v.resolution
    ensures VideoRun(v, frames).cam == v.cam && VideoRun(v, frames).resolution == v.resolution
  {
    if frames != [] {
      SteadyCamera(v, frames[..|frames| - 1]);
    }
  }

  /** The consumer from start to finish: a camera is opened only when the first
      frame is usable; when one is, every usable frame is sent, the camera ends
      at the size of the last one, it is reopened once per change of size, and
      it is left closed but still set when the track ends. */
  lemma ConsumeVideoOutcome(cam0: Option<Camera>, frames: seq<Frame>)
    ensures var c := ConsumeVideo(cam0, frames);
      (frames == [] || !Usable(frames[0])) ==> c.sent == 0 && c.reinits == 0 && c.cam == CloseCamera(cam0)
    ensures var c := ConsumeVideo(cam0, frames);
      frames != [] && Usable(frames[0]) ==>
        && c.sent == |UsableDims(frames)|
        && c.reinits == Changes(DimsOf(frames[0]), UsableDims(frames))
        && c.cam == Some(Camera(LastDims(DimsOf(frames[0]), UsableDims(frames)), false))
  {
    if frames != [] && Usable(frames[0]) {
      var d := DimsOf(frames[0]);
      var v0 := VideoLoop(d, Camera(d, true), 0, 0);
      VideoRunTracksResolution(v0, frames[1..]);
      VideoRunKeepsCameraInSync(v0, frames[1..]);
      assert UsableDims(frames) == [d] + UsableDims(frames[1..]);
      assert Changes(d, UsableDims(frames)) == Changes(d, UsableDims(frames[1..]));
      var rest := UsableDims(frames[1..]);
      if rest != [] {
        assert LastDims(d, [d] + rest) == rest[|rest| - 1];
      }
    }
  }
}
