/** The two loops that renumber media records from zero and hand them to the output worker. */
module Forwarding {
  import opened Wrappers
  import opened Bytes
  import opened Media
  import opened OutputWorker
  import opened Service
  import Queue = FreshQueue
  import P = SessionPolicy

  /** The calls of one capture: bind, then write the records renumbered from zero. */
  function WritesOf(binding: MediaBinding, records: seq<MediaRecord>): (r: seq<WorkerCall>)
    requires |records| <= U64_MAX
    ensures |r| == |records| + 1 && r[0] == BindCall(binding)
  {
    if records == [] then [BindCall(binding)]
    else
      var n := |records| - 1;
      WritesOf(binding, records[..n]) + [WriteCall(binding, records[n].(sequence := n))]
  }

  function CallsOf(binding: MediaBinding, records: seq<MediaRecord>, reset: bool): seq<WorkerCall>
    requires |records| <= U64_MAX
  {
    WritesOf(binding, records) + if reset then [ResetCall(binding)] else []
  }

  lemma PerformNext(calls: seq<WorkerCall>, call: WorkerCall)
    requires Perform(calls).Some? && CallWorker(Perform(calls).value, call, true).1.Pass?
    ensures Perform(calls + [call]) == Some(CallWorker(Perform(calls).value, call, true).0)
  {
    hide CallWorker;
    assert (calls + [call])[..|calls|] == calls;
  }

  /** After a healthy run of writes the worker is bound and open. */
  lemma {:induction false} WritesLeaveBound(binding: MediaBinding, records: seq<MediaRecord>)
    requires |records| <= U64_MAX && Perform(WritesOf(binding, records)).Some?
    ensures var w := Perform(WritesOf(binding, records)).value; w.binding == Some(binding) && w.open && !w.failed
  {
    hide RecordBytes, ControlBytes;
    var calls := WritesOf(binding, records);
    if records == [] {
      assert calls[..|calls| - 1] == [];
    } else {
      assert calls[..|calls| - 1] == WritesOf(binding, records[..|records| - 1]);
      WritesLeaveBound(binding, records[..|records| - 1]);
    }
  }

  lemma RefusedWriteKeeps(w: WorkerState, call: WorkerCall)
    requires call.WriteCall? && !w.failed && CallWorker(w, call, true).1.Fail?
    ensures CallWorker(w, call, true).0 == w
  {
    hide RecordBytes, ControlBytes;
  }

  lemma OneMoreWrite(binding: MediaBinding, records: seq<MediaRecord>, i: nat)
    requires i < |records| <= U64_MAX && Perform(WritesOf(binding, records[..i])).Some?
    ensures var w, call := Perform(WritesOf(binding, records[..i])).value, WriteCall(binding, records[i].(sequence := i));
            if CallWorker(w, call, true).1.Pass? then Perform(WritesOf(binding, records[..i + 1])) == Some(CallWorker(w, call, true).0)
            else CallWorker(w, call, true).0 == w
  {
    var w, call := Perform(WritesOf(binding, records[..i])).value, WriteCall(binding, records[i].(sequence := i));
    WritesLeaveBound(binding, records[..i]);
    assert WritesOf(binding, records[..i + 1]) == WritesOf(binding, records[..i]) + [call] by {
      assert records[..i + 1][..i] == records[..i];
      hide Perform, CallWorker;
    }
    hide *;
    if CallWorker(w, call, true).1.Pass? {
      PerformNext(WritesOf(binding, records[..i]), call);
    } else {
      RefusedWriteKeeps(w, call);
    }
  }

  /**
   * The browser's output loop, on a bound and healthy worker. It writes
   * records until one is refused or the session is cancelled; the reset
   * reaches the worker in every case.
   */
  method OutputLoop(output: Worker, binding: MediaBinding, records: seq<MediaRecord>, cancelled: seq<bool>)
    returns (count: nat, r: Outcome<WorkerError>)
    requires output.Valid() && Perform(WritesOf(binding, [])) == Some(output.State())
    requires |cancelled| == |records| <= U64_MAX
    modifies output, output.pipe
    ensures output.Valid() && output.pipe == old(output.pipe) && count <= |records|
    ensures forall i :: 0 <= i < count ==> !cancelled[i]
    ensures r.Pass? ==> count == |records| || cancelled[count]
    ensures r.Fail? ==>
      && count < |records| && Perform(WritesOf(binding, records[..count])).Some?
      && CallWorker(Perform(WritesOf(binding, records[..count])).value, WriteCall(binding, records[count].(sequence := count)), true).1 == r
    ensures Perform(CallsOf(binding, records[..count], true)) == Some(output.State())
  {
    hide Perform, WritesOf, CallWorker;
    count, r := 0, Pass;
    assert records[..0] == [];
    while count < |records| && r.Pass? && !cancelled[count]
      invariant count <= |records| && output.Valid() && output.pipe == old(output.pipe)
      invariant forall i :: 0 <= i < count ==> !cancelled[i]
      invariant Perform(WritesOf(binding, records[..count])) == Some(output.State())
      invariant r.Fail? ==>
        && count < |records|
        && CallWorker(output.State(), WriteCall(binding, records[count].(sequence := count)), true).1 == r
      decreases |records| - count, r.Pass?
    {
      OneMoreWrite(binding, records, count);
      r := output.Write(binding, records[count].(sequence := count), true);
      count := if r.Pass? then count + 1 else count;
    }
    ResetSucceeds(binding, records[..count]);
    var reset := output.ResetTo(binding, true);
  }

  lemma ResetSucceeds(binding: MediaBinding, records: seq<MediaRecord>)
    requires |records| <= U64_MAX && Perform(WritesOf(binding, records)).Some?
    ensures var w := Perform(WritesOf(binding, records)).value;
            Perform(CallsOf(binding, records, true)) == Some(CallWorker(w, ResetCall(binding), true).0)
  {
    WritesLeaveBound(binding, records);
    hide ControlBytes, Perform;
    PerformNext(WritesOf(binding, records), ResetCall(binding));
  }

  // ------------------------------------------------- the native capture loop

  /** The first `count` delivered items exist and are frames. */
  predicate AllFrames(delivered: seq<Queue.Queued>, count: nat)
  {
    count <= |delivered| && forall i :: 0 <= i < count ==> !Queue.Terminal(delivered[i].item)
  }

  /** The records of the first `count` delivered items. */
  function Taken(delivered: seq<Queue.Queued>, count: nat): (r: seq<MediaRecord>)
    requires AllFrames(delivered, count)
    ensures |r| == count
    ensures forall i :: 0 <= i < count ==> r[i] == delivered[i].item.record
  {
    seq(count, i requires 0 <= i < count => delivered[i].item.record)
  }

  /** The policy after capture started and accepted a frame at each time of `clock`; None once it refuses. */
  function Framed(p: P.Policy, generation: u64, clock: seq<u64>): Option<P.Policy>
  {
    if clock == [] then Some(p)
    else
      var n := |clock| - 1;
      var before := Framed(p, generation, clock[..n]);
      if before.None? then None
      else if n == 0 && P.Refusal(p, P.CaptureStarted(generation)).Some? then None
      else
        var q := if n == 0 then P.After(p, P.CaptureStarted(generation)) else before.value;
        var frame := P.AcceptFrame(generation, clock[n]);
        if P.Refusal(q, frame).Some? then None else Some(P.After(q, frame))
  }

  /** What becomes of the policy with frame `i`: refused, or the state it leads to. */
  lemma FramedNext(p: P.Policy, generation: u64, clock: seq<u64>, i: nat)
    requires i < |clock| && Framed(p, generation, clock[..i]).Some?
    ensures var q := Framed(p, generation, clock[..i]).value;
            var started := P.CaptureStarted(generation);
            var ready := if i == 0 then P.After(q, started) else q;
            var frame := P.AcceptFrame(generation, clock[i]);
            Framed(p, generation, clock[..i + 1]) ==
            if (i == 0 && P.Refusal(q, started).Some?) || P.Refusal(ready, frame).Some? then None else Some(P.After(ready, frame))
  {
    hide P.Refusal, P.After;
    assert clock[..i + 1][..i] == clock[..i];
  }

  datatype ArmOutcome =
    | Running
    | StoppedByPhone
    | MediaFailed
    | PolicyRefused(policyError: P.PolicyError)
    | SequenceExhausted
    | WorkerFailed(workerError: WorkerError)

  predicate Disarmed(p: P.Policy)
  {
    p.capture.Idle? && p.leaseExpiresAtMs.None? && p.lastFrameAtMs.None? && !p.output.ReadyLive?
  }

  method Disarm(policy: P.SessionPolicy)
    modifies policy
    ensures Disarmed(policy.State())
  {
    policy.StopCapture();
  }

  /**
   * The media arm of an active capture, over the items it receives and the
   * times it receives them. Every frame written was first accepted by the
   * policy under the binding's generation, and is numbered from zero; the arm
   * ends with the policy disarmed.
   */
  method MediaArm(output: Worker, policy: P.SessionPolicy, binding: MediaBinding, delivered: seq<Queue.Queued>, clock: seq<u64>)
    returns (count: nat, r: ArmOutcome)
    requires output.Valid() && Perform(WritesOf(binding, [])) == Some(output.State())
    requires |clock| == |delivered|
    modifies output, output.pipe, policy
    ensures output.Valid() && output.pipe == old(output.pipe)
    ensures AllFrames(delivered, count) && count <= U64_MAX
    ensures Perform(WritesOf(binding, Taken(delivered, count))) == Some(output.State())
    ensures Framed(old(policy.State()), binding.generation, clock[..count]).Some?
    ensures r.Running? ==>
      count == |delivered| && Framed(old(policy.State()), binding.generation, clock) == Some(policy.State())
    ensures !r.Running? ==> count < |delivered| && Disarmed(policy.State())
    ensures r.StoppedByPhone? ==> delivered[count].item.Sent? && delivered[count].item.record.kind.StopRecord?
    ensures r.MediaFailed? ==> delivered[count].item.Broken?
    ensures r.PolicyRefused? ==> Framed(old(policy.State()), binding.generation, clock[..count + 1]).None?
    ensures r.SequenceExhausted? ==> count == U64_MAX
    ensures r.WorkerFailed? ==>
      && delivered[count].item.Sent? && count < U64_MAX
      && CallWorker(output.State(), WriteCall(binding, delivered[count].item.record.(sequence := count)), true).1 == Fail(r.workerError)
  {
    hide Perform, WritesOf, CallWorker, P.Refusal, P.After;
    count := 0;
    var captureStarted := false;
    assert Framed(policy.State(), binding.generation, clock[..0]) == Some(policy.State());
    hide Framed;
    assert Taken(delivered, 0) == [];
    while count < |delivered|
      invariant output.Valid() && output.pipe == old(output.pipe)
      invariant AllFrames(delivered, count) && count <= U64_MAX
      invariant Perform(WritesOf(binding, Taken(delivered, count))) == Some(output.State())
      invariant captureStarted <==> count > 0
      invariant Framed(old(policy.State()), binding.generation, clock[..count]) == Some(policy.State())
    {
      var item := delivered[count].item;
      if item.Broken? {
        Disarm(policy);
        return count, MediaFailed;
      }
      if item.record.kind.StopRecord? {
        Disarm(policy);
        return count, StoppedByPhone;
      }
      FramedNext(old(policy.State()), binding.generation, clock, count);
      if !captureStarted {
        var started := policy.Started(binding.generation);
        if started.Fail? {
          Disarm(policy);
          return count, PolicyRefused(started.error);
        }
        captureStarted := true;
      }
      var accepted := policy.Accept(binding.generation, clock[count]);
      if accepted.Fail? {
        Disarm(policy);
        return count, PolicyRefused(accepted.error);
      }
      if count == U64_MAX {
        Disarm(policy);
        return count, SequenceExhausted;
      }
      OneMoreTaken(delivered, count);
      OneMoreWrite(binding, Taken(delivered, count + 1), count);
      var wrote := output.Write(binding, item.record.(sequence := count), true);
      if wrote.Fail? {
        Disarm(policy);
        return count, WorkerFailed(wrote.error);
      }
      count := count + 1;
    }
    assert clock[..count] == clock;
    r := Running;
  }

  lemma OneMoreTaken(delivered: seq<Queue.Queued>, count: nat)
    requires AllFrames(delivered, count + 1)
    ensures Taken(delivered, count + 1)[..count] == Taken(delivered, count)
    ensures Taken(delivered, count + 1)[..count + 1] == Taken(delivered, count + 1)
  {
  }

  // ----------------------------------------------------- what the calls mean

  predicate AllWritable(records: seq<MediaRecord>)
  {
    forall i :: 0 <= i < |records| ==> records[i].kind.H264AccessUnit? && Writable(records[i])
  }

  predicate TimesOrdered(records: seq<MediaRecord>)
  {
    forall i, j :: 0 <= i < j < |records| ==> records[i].presentationTimeUs <= records[j].presentationTimeUs
  }

  /** Frames the worker writes, in an order the far validator accepts. */
  predicate Forwardable(records: seq<MediaRecord>)
  {
    AllWritable(records) && TimesOrdered(records)
  }

  lemma TimesOrderedNext(records: seq<MediaRecord>)
    requires records != []
    ensures var n := |records| - 1;
            TimesOrdered(records) <==>
              TimesOrdered(records[..n]) && (n > 0 ==> records[n - 1].presentationTimeUs <= records[n].presentationTimeUs)
  {
    var n := |records| - 1;
    var front := records[..n];
    assert forall i :: 0 <= i < n ==> front[i] == records[i];
  }

  /** On a bound and healthy worker a write succeeds exactly for a writable access unit. */
  lemma WriteSucceedsExactly(w: WorkerState, binding: MediaBinding, record: MediaRecord)
    requires w.binding == Some(binding) && w.open && !w.failed
    ensures CallWorker(w, WriteCall(binding, record), true).1.Pass? <==> record.kind.H264AccessUnit? && Writable(record)
  {
    hide RecordBytes;
  }

  lemma {:induction false} WritesPerformExactly(binding: MediaBinding, records: seq<MediaRecord>)
    requires |records| <= U64_MAX
    ensures Perform(WritesOf(binding, records)).Some? <==> AllWritable(records)
  {
    hide RecordBytes, ControlBytes;
    var calls := WritesOf(binding, records);
    if records == [] {
      assert calls[..|calls| - 1] == [];
    } else {
      var n := |records| - 1;
      assert calls[..|calls| - 1] == WritesOf(binding, records[..n]);
      WritesPerformExactly(binding, records[..n]);
      assert AllWritable(records) <==> AllWritable(records[..n]) && records[n].kind.H264AccessUnit? && Writable(records[n]);
      if Perform(WritesOf(binding, records[..n])).Some? {
        WritesLeaveBound(binding, records[..n]);
        hide CallWorker, AllWritable;
        WriteSucceedsExactly(Perform(WritesOf(binding, records[..n])).value, binding, records[n].(sequence := n));
      }
    }
  }

  lemma {:induction false} WritesDeliver(binding: MediaBinding, records: seq<MediaRecord>)
    requires |records| <= U64_MAX
    ensures var sent := Deliveries(WritesOf(binding, records));
            |sent| == |records| && forall i :: 0 <= i < |records| ==> sent[i] == Delivery(binding, records[i].payload)
  {
    var calls := WritesOf(binding, records);
    if records == [] {
      assert calls[..|calls| - 1] == [];
    } else {
      WritesDeliver(binding, records[..|records| - 1]);
      assert calls[..|calls| - 1] == WritesOf(binding, records[..|records| - 1]);
    }
  }

  lemma {:induction false} WritesCount(binding: MediaBinding, records: seq<MediaRecord>)
    requires |records| <= U64_MAX
    ensures var calls := WritesOf(binding, records);
            && CountSinceBind(calls) == |records|
            && LastTimeSinceBind(calls) == (if records == [] then None else Some(records[|records| - 1].presentationTimeUs))
  {
    if records != [] {
      var calls := WritesOf(binding, records);
      WritesCount(binding, records[..|records| - 1]);
      assert calls[..|calls| - 1] == WritesOf(binding, records[..|records| - 1]);
    }
  }

  lemma {:induction false} WritesNumberedExactly(binding: MediaBinding, records: seq<MediaRecord>)
    requires |records| <= U64_MAX && binding.generation != 0
    ensures WellNumbered(WritesOf(binding, records)) <==> TimesOrdered(records)
  {
    var calls := WritesOf(binding, records);
    var front, last := calls[..|calls| - 1], calls[|calls| - 1];
    assert calls == front + [last];
    if records == [] {
      assert front == [];
    } else {
      var n := |records| - 1;
      assert front == WritesOf(binding, records[..n]);
      WritesNumberedExactly(binding, records[..n]);
      WritesCount(binding, records[..n]);
      TimesOrderedNext(records);
      hide TimesOrdered;
    }
    PrefixNumbered(front, last);
    NoCalls();
    hide WellNumbered, WritesOf;
  }

  lemma NoCalls()
    ensures WellNumbered([])
  {
  }

  /**
   * Forwarding records renumbered from zero succeeds, in the form the service
   * accepts, exactly when they are writable frames in timestamp order; and it
   * sends their payloads.
   */
  lemma CallsAcceptedExactly(binding: MediaBinding, records: seq<MediaRecord>, reset: bool)
    requires |records| <= U64_MAX && binding.generation != 0
    ensures var calls := CallsOf(binding, records, reset);
            && (Perform(calls).Some? && WellNumbered(calls) <==> Forwardable(records))
            && |Deliveries(calls)| == |records|
            && forall i :: 0 <= i < |records| ==> Deliveries(calls)[i] == Delivery(binding, records[i].payload)
  {
    hide WellNumbered, AllWritable, TimesOrdered;
    var writes := WritesOf(binding, records);
    var calls := CallsOf(binding, records, reset);
    WritesPerformExactly(binding, records);
    WritesDeliver(binding, records);
    WritesNumberedExactly(binding, records);
    hide WritesOf, CallWorker;
    if reset {
      assert calls[..|calls| - 1] == writes;
      if Perform(writes).Some? {
        ResetSucceeds(binding, records);
      }
      PrefixNumbered(writes, ResetCall(binding));
    } else {
      assert calls == writes;
    }
  }
}
