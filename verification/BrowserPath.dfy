/**
 * The browser's media path from the network to the decoder: samples are
 * stamped, held back and evicted by the sender, renumbered by the output loop,
 * written to the service pipe, and executed.
 */
module BrowserPath {
  import opened Wrappers
  import opened Bytes
  import opened Media
  import opened Service
  import opened OutputWorker
  import opened Forwarding
  import Rtc

  /** One media event of the peer connection; its time is `numer / denom` seconds. */
  datatype Sample = Sample(contiguous: bool, numer: u64, denom: u32, keyFrame: bool, payload: seq<byte>)

  predicate Usable(sample: Sample)
  {
    sample.contiguous && sample.denom != 0
  }

  function DataOf(sample: Sample): Rtc.MediaData
  {
    if Usable(sample) then Rtc.Contiguous(sample.keyFrame) else Rtc.Discontiguous
  }

  function SaturatingMul(x: u64, y: u64): (r: u64)
  {
    if x * y <= U64_MAX then x * y else U64_MAX
  }

  /** The time of the first usable sample, which every other one is counted from. */
  function FirstTime(samples: seq<Sample>): u64
  {
    if samples == [] then 0 else if Usable(samples[0]) then samples[0].numer else FirstTime(samples[1..])
  }

  /** Microseconds since `base`. */
  function TimeSince(base: u64, sample: Sample): (r: u64)
    requires Usable(sample)
  {
    Quotient(SaturatingMul(SaturatingSub(sample.numer, base), 1_000_000), sample.denom)
  }

  function Quotient(x: u64, d: u32): (r: u64)
    requires d != 0
  {
    QuotientFits(x, d);
    x / d
  }

  lemma QuotientFits(x: nat, d: nat)
    requires d != 0
    ensures 0 <= x / d <= x
  {
    var q := x / d;
    assert x == q * d + x % d;
    ProductsGrow(1, d, q);
  }

  lemma ProductsGrow(x: nat, y: nat, d: nat)
    requires x <= y
    ensures x * d <= y * d
  {
    assert y * d == x * d + (y - x) * d;
  }

  /** The time is the whole number of microseconds since the first usable sample, up to the saturation of the product. */
  lemma TimeIsMicroseconds(samples: seq<Sample>, first: nat, sample: Sample)
    requires first < |samples| && Usable(samples[first]) && forall i :: 0 <= i < first ==> !Usable(samples[i])
    requires Usable(sample)
    ensures var elapsed := if sample.numer >= samples[first].numer then sample.numer - samples[first].numer else 0;
            var counted := if elapsed * 1_000_000 <= U64_MAX then elapsed * 1_000_000 else U64_MAX;
            var time := TimeSince(FirstTime(samples), sample);
            time * sample.denom <= counted < (time + 1) * sample.denom
  {
    FirstIsFirst(samples, first);
    QuotientBounds(SaturatingMul(SaturatingSub(sample.numer, samples[first].numer), 1_000_000), sample.denom);
  }

  lemma {:induction false} FirstIsFirst(samples: seq<Sample>, first: nat)
    requires first < |samples| && Usable(samples[first]) && forall i :: 0 <= i < first ==> !Usable(samples[i])
    ensures FirstTime(samples) == samples[first].numer
  {
    if first > 0 {
      assert !Usable(samples[0]);
      FirstIsFirst(samples[1..], first - 1);
    }
  }

  lemma QuotientBounds(x: u64, d: u32)
    requires d != 0
    ensures Quotient(x, d) * d <= x < (Quotient(x, d) + 1) * d
  {
    var q := x / d;
    assert x == q * d + x % d;
    assert (q + 1) * d == q * d + d;
  }

  /** The record the sender makes of the sample that `frame` stands for. */
  function RecordOf(samples: seq<Sample>, frame: Rtc.Frame): MediaRecord
    requires frame.index < |samples| && Usable(samples[frame.index])
  {
    var sample := samples[frame.index];
    MediaRecord(H264AccessUnit, sample.keyFrame, 0, TimeSince(FirstTime(samples), sample), sample.payload)
  }

  /** The media events among the steps of a run, in order. */
  function Arrivals(steps: seq<Rtc.Step>): seq<Rtc.MediaData>
  {
    if steps == [] then []
    else
      var last := steps[|steps| - 1];
      Arrivals(steps[..|steps| - 1]) + if last.Arrives? then [last.data] else []
  }

  /** The media events of the run are those of `samples`. */
  predicate Brings(steps: seq<Rtc.Step>, samples: seq<Sample>)
  {
    && |Arrivals(steps)| == |samples|
    && forall i :: 0 <= i < |samples| ==> Arrivals(steps)[i] == DataOf(samples[i])
  }

  /** A frame is a contiguous event, with its keyframe flag. */
  predicate StandsFor(frame: Rtc.Frame, arrivals: seq<Rtc.MediaData>)
  {
    frame.index < |arrivals| && arrivals[frame.index] == Rtc.Contiguous(frame.key)
  }

  predicate FramesStand(s: Rtc.System, arrivals: seq<Rtc.MediaData>)
  {
    && s.events == |arrivals|
    && (forall f :: f in s.delivered ==> StandsFor(f, arrivals))
    && (forall f :: f in s.sender.channel ==> StandsFor(f, arrivals))
    && (s.producer.Evicting? ==> StandsFor(s.producer.frame, arrivals))
  }

  lemma ArrivalStands(s: Rtc.System, arrivals: seq<Rtc.MediaData>, data: Rtc.MediaData)
    requires FramesStand(s, arrivals) && Rtc.Next(s, Rtc.Arrives(data)).Some?
    ensures FramesStand(Rtc.Next(s, Rtc.Arrives(data)).value, arrivals + [data])
  {
    Rtc.ArrivalAppends(s, data);
    hide Rtc.Next;
    assert forall f :: StandsFor(f, arrivals) ==> StandsFor(f, arrivals + [data]);
  }

  lemma OtherStepsStand(s: Rtc.System, arrivals: seq<Rtc.MediaData>, step: Rtc.Step)
    requires FramesStand(s, arrivals) && Rtc.Next(s, step).Some? && !step.Arrives?
    ensures FramesStand(Rtc.Next(s, step).value, arrivals)
  {
    hide Rtc.TakesOrphan, Rtc.Dropping, StandsFor;
  }

  lemma {:induction false} DeliveredStand(steps: seq<Rtc.Step>)
    requires Rtc.Run(steps).Some?
    ensures FramesStand(Rtc.Run(steps).value, Arrivals(steps))
  {
    if steps != [] {
      hide Rtc.Next, FramesStand;
      var front, last := steps[..|steps| - 1], steps[|steps| - 1];
      DeliveredStand(front);
      var s := Rtc.Run(front).value;
      if last.Arrives? {
        ArrivalStands(s, Arrivals(front), last.data);
      } else {
        OtherStepsStand(s, Arrivals(front), last);
        assert Arrivals(steps) == Arrivals(front);
      }
    }
  }

  /** Every frame is one of the samples, a usable one with the same keyframe flag. */
  predicate FromSamples(frames: seq<Rtc.Frame>, samples: seq<Sample>)
  {
    forall i :: 0 <= i < |frames| ==>
      frames[i].index < |samples| && Usable(samples[frames[i].index]) && samples[frames[i].index].keyFrame == frames[i].key
  }

  /** The records that reach the output loop. */
  function Records(samples: seq<Sample>, frames: seq<Rtc.Frame>): (r: seq<MediaRecord>)
    requires FromSamples(frames, samples)
    ensures |r| == |frames|
    ensures forall i :: 0 <= i < |frames| ==> r[i] == RecordOf(samples, frames[i])
  {
    seq(|frames|, i requires 0 <= i < |frames| => RecordOf(samples, frames[i]))
  }

  lemma DeliveredAreSamples(steps: seq<Rtc.Step>, samples: seq<Sample>)
    requires Rtc.Run(steps).Some? && Brings(steps, samples)
    ensures FromSamples(Rtc.Run(steps).value.delivered, samples)
  {
    DeliveredStand(steps);
    hide Rtc.Run, Arrivals;
    var frames := Rtc.Run(steps).value.delivered;
    forall i | 0 <= i < |frames|
      ensures frames[i].index < |samples| && Usable(samples[frames[i].index]) && samples[frames[i].index].keyFrame == frames[i].key
    {
      assert frames[i] in frames;
    }
  }

  /** What a later end accepts of the delivered frames: payloads of a lawful size, and times that never go back. */
  predicate Lawful(samples: seq<Sample>, frames: seq<Rtc.Frame>)
    requires FromSamples(frames, samples)
  {
    && (forall i :: 0 <= i < |frames| ==> 1 <= |samples[frames[i].index].payload| <= MAX_H264_ACCESS_UNIT_BYTES)
    && (forall i, j :: 0 <= i < j < |frames| ==>
          TimeSince(FirstTime(samples), samples[frames[i].index]) <= TimeSince(FirstTime(samples), samples[frames[j].index]))
  }

  lemma LawfulExactly(samples: seq<Sample>, frames: seq<Rtc.Frame>)
    requires FromSamples(frames, samples)
    ensures Forwardable(Records(samples, frames)) <==> Lawful(samples, frames)
  {
    hide TimeSince, FirstTime;
    var records := Records(samples, frames);
    assert forall i :: 0 <= i < |frames| ==>
      (Writable(records[i]) <==> 1 <= |samples[frames[i].index].payload| <= MAX_H264_ACCESS_UNIT_BYTES);
    assert forall i :: 0 <= i < |frames| ==>
      records[i].presentationTimeUs == TimeSince(FirstTime(samples), samples[frames[i].index]);
  }

  /**
   * End to end in the browser path: whatever samples come in, and however the
   * sender and the output loop interleave, no write and no record is refused
   * exactly when the delivered payloads have a lawful size and their times
   * never go back; the decoder then gets exactly those payloads, in order,
   * which are payloads of distinct samples in their original order.
   */
  lemma BrowserToDecoder(binding: MediaBinding, samples: seq<Sample>, steps: seq<Rtc.Step>, reset: bool, closing: bool)
    requires binding.generation != 0
    requires Rtc.Run(steps).Some? && Brings(steps, samples) && |Rtc.Run(steps).value.delivered| <= U64_MAX
    ensures var frames := Rtc.Run(steps).value.delivered;
            && FromSamples(frames, samples) && Rtc.Increasing(frames)
            && (var calls := CallsOf(binding, Records(samples, frames), reset);
                && (Perform(calls).Some? && RunService(Unbound, Wire(calls, closing)).outcome.Pass? <==> Lawful(samples, frames))
                && (Lawful(samples, frames) ==>
                      var delivered := RunService(Unbound, Wire(calls, closing)).delivered;
                      && |delivered| == |frames|
                      && forall i :: 0 <= i < |frames| ==> delivered[i] == Delivery(binding, samples[frames[i].index].payload)))
  {
    hide Rtc.Run, RunService, Perform, CallsOf, Forwardable, Lawful;
    DeliveredAreSamples(steps, samples);
    Rtc.DeliveryChainsExactly(steps);
    var frames := Rtc.Run(steps).value.delivered;
    var records := Records(samples, frames);
    var calls := CallsOf(binding, records, reset);
    LawfulExactly(samples, frames);
    CallsAcceptedExactly(binding, records, reset);
    if Perform(calls).Some? {
      PipeDelivers(calls, closing);
    }
  }

  lemma OneMoreTime(q: nat, r: nat, d: nat)
    ensures q > r ==> q * d >= r * d + d
  {
    if q > r {
      ProductsGrow(r + 1, q, d);
      assert (r + 1) * d == r * d + d;
    }
  }

  lemma QuotientGrows(x: u64, y: u64, d: u32)
    requires x <= y && d != 0
    ensures Quotient(x, d) <= Quotient(y, d)
  {
    var q, r := x / d, y / d;
    assert x == q * d + x % d && y == r * d + y % d;
    OneMoreTime(q, r, d);
  }

  /** A sender whose clock has one rate and never steps back keeps the times of whatever is delivered in order. */
  lemma SteadyClockIsLawful(samples: seq<Sample>, frames: seq<Rtc.Frame>)
    requires FromSamples(frames, samples) && Rtc.Increasing(frames)
    requires forall i :: 0 <= i < |samples| ==> 1 <= |samples[i].payload| <= MAX_H264_ACCESS_UNIT_BYTES
    requires forall i, j :: 0 <= i < j < |samples| && Usable(samples[i]) && Usable(samples[j]) ==>
               samples[i].numer <= samples[j].numer && samples[i].denom == samples[j].denom
    ensures Lawful(samples, frames)
  {
    hide Quotient, FirstTime;
    var base := FirstTime(samples);
    forall i, j | 0 <= i < j < |frames|
      ensures TimeSince(base, samples[frames[i].index]) <= TimeSince(base, samples[frames[j].index])
    {
      var before, after := samples[frames[i].index], samples[frames[j].index];
      assert frames[i].index < frames[j].index;
      QuotientGrows(SaturatingMul(SaturatingSub(before.numer, base), 1_000_000),
                    SaturatingMul(SaturatingSub(after.numer, base), 1_000_000), before.denom);
    }
  }
}
