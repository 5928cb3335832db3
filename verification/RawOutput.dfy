/** The raw output writer: frame sizes, the bounded frame queue and the mux itself. */
module RawOutput {
  import opened Wrappers
  import opened Bytes

  const RAW_FRAME_QUEUE_CAPACITY := 2
  const STALE_FRAME_LIMIT_NS := 400_000_000

  datatype VideoFormat = VideoFormat(width: nat, height: nat, fps: nat)

  /** The bounds every configured format has passed. */
  predicate Supported(format: VideoFormat)
  {
    && 320 <= format.width <= 4096 && 240 <= format.height <= 4096
    && format.width % 2 == 0 && format.height % 2 == 0
    && format.width * format.height <= 3840 * 2160
    && 15 <= format.fps <= 60
  }

  function FrameBytes(format: VideoFormat): nat
  {
    format.width * format.height * 3 / 2
  }

  /** A supported format's frame is one luma plane and two quarter-size chroma planes, exactly. */
  lemma FrameIsThreePlanes(format: VideoFormat)
    requires Supported(format)
    ensures FrameBytes(format) == format.width * format.height + 2 * ((format.width / 2) * (format.height / 2))
    ensures 0 < format.width * format.height < FrameBytes(format) <= 12_441_600
  {
    var w, h := format.width / 2, format.height / 2;
    assert format.width == 2 * w && format.height == 2 * h;
    assert format.width * format.height == 4 * (w * h);
  }

  /** Black in I420: luma 16, chroma 128. */
  method BlackI420Frame(format: VideoFormat) returns (frame: array<byte>)
    requires Supported(format)
    ensures fresh(frame) && frame[..] == NeutralFrame(format)
  {
    FrameIsThreePlanes(format);
    var lumaBytes := format.width * format.height;
    frame := new byte[FrameBytes(format)](i => 0);
    forall i | 0 <= i < lumaBytes {
      frame[i] := 16;
    }
    forall i | lumaBytes <= i < frame.Length {
      frame[i] := 128;
    }
  }

  function NeutralFrame(format: VideoFormat): (r: seq<byte>)
    ensures |r| == FrameBytes(format)
  {
    seq(FrameBytes(format), i => if i < format.width * format.height then 16 else 128)
  }

  // -------------------------------------------------------------- the queue

  /** A new frame pushes out the oldest ones once two are waiting. */
  function Pushed<T>(queue: seq<T>, frame: T): (r: seq<T>)
    ensures 0 < |r| <= RAW_FRAME_QUEUE_CAPACITY && r[|r| - 1] == frame
  {
    (if |queue| >= RAW_FRAME_QUEUE_CAPACITY then queue[|queue| - RAW_FRAME_QUEUE_CAPACITY + 1..] else queue) + [frame]
  }

  function Latest<T>(queue: seq<T>): Option<T>
  {
    if queue == [] then None else Some(queue[|queue| - 1])
  }

  class RawFrameQueue {
    const frameBytes: nat
    var frames: seq<seq<byte>>

    constructor (frameBytes: nat)
      ensures this.frameBytes == frameBytes && frames == []
    {
      this.frameBytes := frameBytes;
      frames := [];
    }

    /** Frames of any other size are not queued at all. */
    method Push(frame: seq<byte>)
      modifies this
      ensures frames == if |frame| == frameBytes then Pushed(old(frames), frame) else old(frames)
    {
      if |frame| != frameBytes {
        return;
      }
      while |frames| >= RAW_FRAME_QUEUE_CAPACITY
        invariant |frames| <= |old(frames)|
        invariant frames == old(frames)[|old(frames)| - |frames|..]
        invariant |frames| >= RAW_FRAME_QUEUE_CAPACITY - 1 || frames == old(frames)
        decreases |frames|
      {
        frames := frames[1..];
      }
      frames := frames + [frame];
    }

    method TakeLatest() returns (latest: Option<seq<byte>>)
      modifies this
      ensures latest == Latest(old(frames)) && frames == []
    {
      latest := if frames == [] then None else Some(frames[|frames| - 1]);
      frames := [];
    }

    method Clear()
      modifies this
      ensures frames == []
    {
      frames := [];
    }
  }

  // --------------------------------------------------------------- the pump

  /** The whole frames of `size` bytes at the front of the decoder's output. */
  function Chopped(output: seq<byte>, size: nat): (r: seq<seq<byte>>)
    requires size > 0
    ensures forall i :: 0 <= i < |r| ==> |r[i]| == size
    decreases |output|
  {
    if |output| < size then [] else [output[..size]] + Chopped(output[size..], size)
  }

  function Joined(frames: seq<seq<byte>>): seq<byte>
  {
    if frames == [] then [] else frames[0] + Joined(frames[1..])
  }

  /** Chopping loses nothing but an unfinished last frame. */
  lemma {:induction false} ChoppedIsWhole(output: seq<byte>, size: nat) returns (tail: seq<byte>)
    requires size > 0
    ensures output == Joined(Chopped(output, size)) + tail && |tail| < size
    decreases |output|
  {
    if |output| < size {
      tail := output;
    } else {
      var others := Chopped(output[size..], size);
      tail := ChoppedIsWhole(output[size..], size);
      assert Chopped(output, size)[1..] == others;
      assert output == output[..size] + (Joined(others) + tail);
    }
  }

  function PushedAll<T>(queue: seq<T>, frames: seq<T>): seq<T>
    decreases |frames|
  {
    if frames == [] then queue else PushedAll(Pushed(queue, frames[0]), frames[1..])
  }

  /** Pushes every whole frame the decoder puts out, until its output ends. */
  method PumpFrames(output: Reader, queue: RawFrameQueue)
    requires queue.frameBytes > 0
    modifies output, queue
    ensures queue.frames == PushedAll(old(queue.frames), Chopped(old(output.rest), queue.frameBytes))
  {
    var size := queue.frameBytes;
    ghost var all := PushedAll(queue.frames, Chopped(output.rest, size));
    while true
      invariant PushedAll(queue.frames, Chopped(output.rest, size)) == all
      decreases |output.rest|
    {
      ghost var rest := output.rest;
      var frame := new byte[size](i => 0);
      var ok := output.ReadExact(frame, 0);
      if !ok {
        return;
      }
      assert frame[..] == rest[..size];
      assert Chopped(rest, size)[1..] == Chopped(rest[size..], size);
      queue.Push(frame[..]);
    }
  }

  // ---------------------------------------------------------------- the mux

  /** What the mux thread keeps between ticks. */
  datatype MuxMemory<T> = MuxMemory(active: bool, lastFrame: Option<T>, lastFrameAt: Option<nat>)

  function Switched<T>(active: bool): MuxMemory<T>
  {
    MuxMemory(active, None, None)
  }

  /** A tick at `now` that found `latest` in the queue. */
  function Ticked<T>(m: MuxMemory<T>, latest: Option<T>, now: nat): MuxMemory<T>
  {
    if m.active && latest.Some? then m.(lastFrame := latest, lastFrameAt := Some(now)) else m
  }

  /** The frame to write at `now`; None is the neutral frame. */
  function Chosen<T>(m: MuxMemory<T>, now: nat): Option<T>
  {
    if m.active && m.lastFrameAt.Some? && SaturatingSub(now, m.lastFrameAt.value) < STALE_FRAME_LIMIT_NS then m.lastFrame
    else None
  }

  class RawMux {
    const format: VideoFormat
    const neutral: seq<byte>
    const frames: RawFrameQueue
    var active: bool
    var lastFrame: Option<seq<byte>>
    var lastFrameAt: Option<nat>

    function Memory(): MuxMemory<seq<byte>>
      reads this
    {
      MuxMemory(active, lastFrame, lastFrameAt)
    }

    constructor (format: VideoFormat, frames: RawFrameQueue)
      requires Supported(format)
      ensures this.format == format && this.frames == frames && Memory() == Switched(false)
      ensures neutral == NeutralFrame(format)
    {
      var black := BlackI420Frame(format);
      this.format, this.frames, neutral := format, frames, black[..];
      active, lastFrame, lastFrameAt := false, None, None;
    }

    /** Activate and Deactivate both forget every frame seen so far. */
    method Switch(on: bool)
      modifies this, frames
      ensures Memory() == Switched(on) && frames.frames == []
    {
      frames.Clear();
      active, lastFrame, lastFrameAt := on, None, None;
    }

    /** The queue is looked at, and so emptied, only while active; its newest frame is written at once. */
    method Tick(now: nat, output: Writer)
      modifies this, frames, output
      ensures Memory() == Ticked(old(Memory()), Latest(old(frames.frames)), now)
      ensures frames.frames == if active then [] else old(frames.frames)
      ensures output.written ==
              old(output.written) + Chosen(Memory(), now).GetOr(neutral)
      ensures active == old(active)
      ensures active && old(frames.frames) != [] ==>
        output.written == old(output.written) + old(frames.frames)[|old(frames.frames)| - 1]
      ensures !active ==> output.written == old(output.written) + neutral
    {
      if active {
        var latest := frames.TakeLatest();
        if latest.Some? {
          lastFrame, lastFrameAt := latest, Some(now);
        }
      }
      var frame := neutral;
      if active && lastFrameAt.Some? && SaturatingSub(now, lastFrameAt.value) < STALE_FRAME_LIMIT_NS {
        frame := lastFrame.GetOr(neutral);
      }
      output.WriteAll(frame);
    }
  }
}
