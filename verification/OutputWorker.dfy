/**
 * The daemon's end of the service pipe, and what the service at the other end
 * makes of the bytes that successful calls leave in it.
 */
module OutputWorker {
  import opened Wrappers
  import opened Bytes
  import opened Media
  import opened Validator
  import opened Service

  datatype WorkerError =
    | Unhealthy | NeedsReset | OtherGeneration | InputClosed
    | StaleBinding | NotAccessUnit | Unwritable(media: MediaError)

  datatype WorkerState = WorkerState(binding: Option<MediaBinding>, open: bool, failed: bool, written: seq<byte>)

  datatype WorkerCall =
    | BindCall(binding: MediaBinding)
    | ResetCall(binding: MediaBinding)
    | WriteCall(binding: MediaBinding, record: MediaRecord)

  const NewWorker := WorkerState(None, true, false, [])

  /** A failed health check is remembered and closes the pipe. */
  function Checked(w: WorkerState, alive: bool): WorkerState
  {
    if w.failed || alive then w else w.(failed := true, open := false)
  }

  /** One call, with whether the child process was still alive when it looked. */
  function CallWorker(w: WorkerState, call: WorkerCall, alive: bool): (WorkerState, Outcome<WorkerError>)
  {
    var checked := Checked(w, alive);
    match call
    case BindCall(binding) =>
      if w.binding.Some? then (w, Fail(NeedsReset))
      else if checked.failed then (checked, Fail(Unhealthy))
      else if !w.open then (w, Fail(InputClosed))
      else (w.(binding := Some(binding), written := w.written + ControlBytes(Bind(binding))), Pass)
    case ResetCall(binding) =>
      if w.binding.Some? && w.binding.value != binding then (w, Fail(OtherGeneration))
      else if checked.failed then (checked, Fail(Unhealthy))
      else if w.binding.None? then (w, Pass)
      else if !w.open then (w, Fail(InputClosed))
      else (w.(binding := None, written := w.written + ControlBytes(Reset(binding))), Pass)
    case WriteCall(binding, record) =>
      if checked.failed then (checked, Fail(Unhealthy))
      else if w.binding != Some(binding) then (w, Fail(StaleBinding))
      else if !record.kind.H264AccessUnit? then (w, Fail(NotAccessUnit))
      else if !w.open then (w, Fail(InputClosed))
      else
        match Refusal(record)
        case Some(error) => (w, Fail(Unwritable(error)))
        case None => (w.(written := w.written + RecordBytes(binding, record)), Pass)
  }

  /** Shutdown is written only to a pipe that is still open and healthy. */
  function ClosingBytes(w: WorkerState): seq<byte>
  {
    if w.open && !w.failed then ControlBytes(Shutdown) else []
  }

  class Worker {
    var currentBinding: Option<MediaBinding>
    var input: Option<Writer>
    var failure: bool
    ghost var pipe: Writer

    ghost predicate Valid()
      reads this
    {
      input.Some? ==> input.value == pipe
    }

    ghost function State(): WorkerState
      reads this, pipe
    {
      WorkerState(currentBinding, input.Some?, failure, pipe.written)
    }

    constructor ()
      ensures Valid() && State() == NewWorker && fresh(pipe)
    {
      var writer := new Writer();
      currentBinding, input, failure, pipe := None, Some(writer), false, writer;
    }

    /** `alive` is what asking the operating system about the child returned. */
    method CheckHealth(alive: bool) returns (healthy: bool)
      requires Valid()
      modifies this
      ensures Valid() && pipe == old(pipe) && State() == Checked(old(State()), alive)
      ensures healthy == !failure
    {
      if failure {
        return false;
      }
      if !alive {
        failure, input := true, None;
      }
      healthy := alive;
    }

    method BindTo(binding: MediaBinding, alive: bool) returns (r: Outcome<WorkerError>)
      requires Valid()
      modifies this, pipe
      ensures Valid() && pipe == old(pipe)
      ensures (State(), r) == CallWorker(old(State()), BindCall(binding), alive)
    {
      if currentBinding.Some? {
        return Fail(NeedsReset);
      }
      var healthy := CheckHealth(alive);
      if !healthy {
        return Fail(Unhealthy);
      }
      if input.None? {
        return Fail(InputClosed);
      }
      WriteOutputControl(input.value, Bind(binding));
      currentBinding := Some(binding);
      r := Pass;
    }

    method ResetTo(binding: MediaBinding, alive: bool) returns (r: Outcome<WorkerError>)
      requires Valid()
      modifies this, pipe
      ensures Valid() && pipe == old(pipe)
      ensures (State(), r) == CallWorker(old(State()), ResetCall(binding), alive)
    {
      if currentBinding.Some? && currentBinding.value != binding {
        return Fail(OtherGeneration);
      }
      var healthy := CheckHealth(alive);
      if !healthy {
        return Fail(Unhealthy);
      }
      if currentBinding.Some? {
        if input.None? {
          return Fail(InputClosed);
        }
        WriteOutputControl(input.value, Reset(binding));
      }
      currentBinding := None;
      r := Pass;
    }

    method Write(binding: MediaBinding, record: MediaRecord, alive: bool) returns (r: Outcome<WorkerError>)
      requires Valid()
      modifies this, pipe
      ensures Valid() && pipe == old(pipe)
      ensures (State(), r) == CallWorker(old(State()), WriteCall(binding, record), alive)
    {
      hide RecordBytes;
      var healthy := CheckHealth(alive);
      if !healthy {
        return Fail(Unhealthy);
      }
      if currentBinding != Some(binding) {
        return Fail(StaleBinding);
      }
      if !record.kind.H264AccessUnit? {
        return Fail(NotAccessUnit);
      }
      if input.None? {
        return Fail(InputClosed);
      }
      var written := WriteRecord(input.value, binding, record);
      r := if written.Fail? then Fail(Unwritable(written.error)) else Pass;
    }

    method Close()
      requires Valid()
      modifies this, pipe
      ensures Valid() && pipe == old(pipe) && input.None?
      ensures pipe.written == old(pipe.written) + ClosingBytes(old(State()))
    {
      if input.Some? && !failure {
        WriteOutputControl(input.value, Shutdown);
      }
      input := None;
    }
  }

  // ---------------------------------------------------------- whole sessions

  /** The worker after `calls` all succeeded; None when one of them fails. */
  function Perform(calls: seq<WorkerCall>): Option<WorkerState>
  {
    if calls == [] then Some(NewWorker)
    else
      match Perform(calls[..|calls| - 1])
      case None => None
      case Some(w) =>
        match CallWorker(w, calls[|calls| - 1], true)
        case (next, Pass) => Some(next)
        case (_, Fail(_)) => None
  }

  /** The payloads written, each with the binding it was written under. */
  function Deliveries(calls: seq<WorkerCall>): seq<Delivery>
  {
    if calls == [] then []
    else
      var call := calls[|calls| - 1];
      Deliveries(calls[..|calls| - 1])
      + if call.WriteCall? then [Delivery(call.binding, call.record.payload)] else []
  }

  /** Access units written since the last bind. */
  function CountSinceBind(calls: seq<WorkerCall>): nat
  {
    if calls == [] || calls[|calls| - 1].BindCall? then 0
    else CountSinceBind(calls[..|calls| - 1]) + if calls[|calls| - 1].WriteCall? then 1 else 0
  }

  /** The timestamp of the last access unit written since the last bind. */
  function LastTimeSinceBind(calls: seq<WorkerCall>): Option<u64>
  {
    if calls == [] || calls[|calls| - 1].BindCall? then None
    else if calls[|calls| - 1].WriteCall? then Some(calls[|calls| - 1].record.presentationTimeUs)
    else LastTimeSinceBind(calls[..|calls| - 1])
  }

  /** What a caller can check before a call that follows `before`. */
  predicate InOrder(before: seq<WorkerCall>, call: WorkerCall)
  {
    match call
    case BindCall(binding) => binding.generation != 0
    case ResetCall(_) => true
    case WriteCall(_, record) =>
      && record.sequence == CountSinceBind(before)
      && (LastTimeSinceBind(before).Some? ==> LastTimeSinceBind(before).value <= record.presentationTimeUs)
  }

  predicate WellNumbered(calls: seq<WorkerCall>)
  {
    forall i :: 0 <= i < |calls| ==> InOrder(calls[..i], calls[i])
  }

  /** The service state that well-numbered calls lead to. */
  function Mirror(calls: seq<WorkerCall>, w: WorkerState): ServiceState
  {
    var count := CountSinceBind(calls);
    ServiceState(
      if w.binding.None? then None
      else Some(ValidatorState(w.binding.value,
                               if 0 < count <= U64_MAX + 1 then Some(count - 1) else None,
                               LastTimeSinceBind(calls), false)),
      Deliveries(calls))
  }

  lemma PrefixNumbered(calls: seq<WorkerCall>, call: WorkerCall)
    ensures WellNumbered(calls + [call]) <==> WellNumbered(calls) && InOrder(calls, call)
  {
    var all := calls + [call];
    assert all[..|calls|] == calls;
    assert forall i :: 0 <= i < |calls| ==> all[..i] == calls[..i] && all[i] == calls[i];
    if WellNumbered(all) {
      assert InOrder(all[..|calls|], all[|calls|]);
    }
  }

  lemma ReadsControl(command: OutputControlCommand, rest: seq<byte>)
    ensures var input := ControlBytes(command) + rest;
            if Issuable(command) then ReadInput(input) == Item(Control(command), rest)
            else ReadInput(input).Malformed?
  {
    hide Envelope;
    hide ParseOutputControl;
    var bytes := ControlBytes(command);
    ControlRoundTrip(bytes, command);
    ControlMagic(command);
    var input := bytes + rest;
    assert input[..84] == bytes && input[84..] == rest;
    assert input[..8] == bytes[..8];
    if !Issuable(command) {
      NeverIssued(command);
    }
  }

  lemma ControlMagic(command: OutputControlCommand)
    ensures ControlBytes(command)[..8] == OUTPUT_CONTROL_MAGIC
  {
    var b := ControlBytes(command);
    if !command.Shutdown? {
      EnvelopeSlices(b, OUTPUT_CONTROL_MAGIC, if command.Bind? then 1 else 2, 0, command.binding);
      assert b[..84] == b;
    }
  }

  lemma NeverIssued(command: OutputControlCommand)
    requires !Issuable(command)
    ensures ParseOutputControl(ControlBytes(command)).Err?
  {
    var b := ControlBytes(command);
    assert b[..84] == b;
    EnvelopeSlices(b, OUTPUT_CONTROL_MAGIC, if command.Bind? then 1 else 2, 0, command.binding);
  }

  lemma ReadsRecord(binding: MediaBinding, record: MediaRecord, rest: seq<byte>)
    requires Writable(record)
    ensures ReadInput(RecordBytes(binding, record) + rest)
         == Item(MediaRead(RecordHeader(binding, record), record.payload), rest)
  {
    hide Envelope;
    hide ReadU32;
    var header := RecordHeader(binding, record);
    var input := RecordBytes(binding, record) + rest;
    ThreeParts(input, header, record.payload, rest);
    HeaderSlices(header, binding, record);
    RecordMagic(binding, record);
    assert input[..8] == header[..8];
  }

  lemma RecordMagic(binding: MediaBinding, record: MediaRecord)
    requires Writable(record)
    ensures RecordHeader(binding, record)[..8] == MEDIA_MAGIC
  {
    var header := RecordHeader(binding, record);
    HeaderSlices(header, binding, record);
    EnvelopeSlices(header, MEDIA_MAGIC, KindByte(record.kind), FlagsOf(record), binding);
  }

  lemma ExecutesRecord(state: ServiceState, binding: MediaBinding, record: MediaRecord)
    requires Writable(record) && Bound(state) == Some(binding)
    ensures var v := state.validator.value;
            var execution := Execute(state, MediaRead(RecordHeader(binding, record), record.payload));
            if Follows(v, record) then execution == Continue(ExecuteRecord(state, record, Committed(v, record)))
            else execution.Refused?
  {
    hide ValidateHeader;
    hide RecordHeader;
    var v := state.validator.value;
    var header := RecordHeader(binding, record);
    ValidateExactly(v, header, record);
    if ValidateHeader(v, header).Ok? {
      ValidatedFields(v, record);
    }
  }

  lemma ValidatedFields(v: ValidatorState, record: MediaRecord)
    requires Writable(record) && ValidateHeader(v, RecordHeader(v.binding, record)).Ok?
    ensures ValidateHeader(v, RecordHeader(v.binding, record))
         == Ok(ValidatedMediaHeader(record.kind, record.keyFrame, record.sequence, record.presentationTimeUs, |record.payload|))
  {
    hide Envelope;
    hide BigEndian;
    hide ReadU16;
    hide ReadU32;
    hide ReadU64;
    var header := RecordHeader(v.binding, record);
    HeaderSlices(header, v.binding, record);
    EnvelopeSlices(header, MEDIA_MAGIC, KindByte(record.kind), FlagsOf(record), v.binding);
  }

  predicate Sane(calls: seq<WorkerCall>, w: WorkerState)
  {
    w.binding.Some? ==> w.binding.value.generation != 0 && CountSinceBind(calls) <= U64_MAX + 1
  }

  /** Once the service read what `w` wrote, it executed everything and waits for `rest`. */
  predicate Followed(calls: seq<WorkerCall>, w: WorkerState, rest: seq<byte>)
  {
    && w.open && !w.failed
    && (WellNumbered(calls) ==>
          Sane(calls, w) && RunService(Unbound, w.written + rest) == RunService(Mirror(calls, w), rest))
    && (!WellNumbered(calls) ==> RunService(Unbound, w.written + rest).outcome.Fail?)
  }

  lemma {:induction false} ServiceFollows(calls: seq<WorkerCall>, rest: seq<byte>)
    requires Perform(calls).Some?
    ensures Followed(calls, Perform(calls).value, rest)
    decreases |calls|
  {
    if calls == [] {
      hide RunService;
      assert [] + rest == rest;
      assert Mirror(calls, NewWorker) == Unbound;
    } else {
      LastCall(calls);
      var front, call := calls[..|calls| - 1], calls[|calls| - 1];
      ServiceFollows(front, CallBytes(Perform(front).value, call) + rest);
      StepFollows(front, Perform(front).value, call, Perform(calls).value, rest);
      assert calls == front + [call];
    }
  }

  lemma StepFollows(front: seq<WorkerCall>, w: WorkerState, call: WorkerCall, next: WorkerState, rest: seq<byte>)
    requires CallWorker(w, call, true) == (next, Pass) && next.open == w.open && next.failed == w.failed
    requires (call.WriteCall? ==> Writable(call.record)) && next.written == w.written + CallBytes(w, call)
    requires Followed(front, w, CallBytes(w, call) + rest)
    ensures Followed(front + [call], next, rest)
  {
    hide RunService;
    hide CallBytes;
    hide CallWorker;
    hide Mirror;
    hide WellNumbered;
    hide Sane;
    hide InOrder;
    PrefixNumbered(front, call);
    assert next.written + rest == w.written + (CallBytes(w, call) + rest);
    if WellNumbered(front) {
      CallFollows(front, w, call, rest);
    }
  }

  lemma LastCall(calls: seq<WorkerCall>)
    requires calls != [] && Perform(calls).Some?
    ensures var front, call := calls[..|calls| - 1], calls[|calls| - 1];
            && Perform(front).Some?
            && CallWorker(Perform(front).value, call, true) == (Perform(calls).value, Pass)
            && (call.WriteCall? ==> Writable(call.record))
            && Perform(calls).value.written == Perform(front).value.written + CallBytes(Perform(front).value, call)
            && Perform(calls).value.open == Perform(front).value.open
            && Perform(calls).value.failed == Perform(front).value.failed
  {
    hide ControlBytes;
    hide RecordBytes;
    var front := calls[..|calls| - 1];
    assert Perform(front).value.written + [] == Perform(front).value.written;
  }

  function CallBytes(w: WorkerState, call: WorkerCall): seq<byte>
    requires call.WriteCall? ==> Writable(call.record)
  {
    match call
    case BindCall(binding) => ControlBytes(Bind(binding))
    case ResetCall(binding) => if w.binding.None? then [] else ControlBytes(Reset(binding))
    case WriteCall(binding, record) => RecordBytes(binding, record)
  }

  lemma CallFollows(front: seq<WorkerCall>, w: WorkerState, call: WorkerCall, rest: seq<byte>)
    requires CallWorker(w, call, true).1.Pass?
    requires Sane(front, w)
    ensures var calls := front + [call];
            var next := CallWorker(w, call, true).0;
            var result := RunService(Mirror(front, w), CallBytes(w, call) + rest);
            && (InOrder(front, call) ==> result == RunService(Mirror(calls, next), rest))
            && (!InOrder(front, call) ==> result.outcome.Fail?)
            && (InOrder(front, call) ==> Sane(calls, next))
  {
    hide ControlBytes;
    hide RecordBytes;
    hide RecordHeader;
    hide ReadInput;
    var calls := front + [call];
    assert calls[..|calls| - 1] == front;
    var state := Mirror(front, w);
    assert !call.WriteCall? ==> Deliveries(calls) == Deliveries(front);
    match call
    case BindCall(binding) =>
      ReadsControl(Bind(binding), rest);
    case ResetCall(binding) =>
      if w.binding.Some? {
        ReadsControl(Reset(binding), rest);
      } else {
        assert [] + rest == rest;
      }
    case WriteCall(binding, record) =>
      ReadsRecord(binding, record, rest);
      hide Execute;
      ExecutesRecord(state, binding, record);
  }

  /** The bytes that successful calls leave in the pipe. */
  function Wire(calls: seq<WorkerCall>, closing: bool): seq<byte>
    requires Perform(calls).Some?
  {
    Perform(calls).value.written + if closing then ClosingBytes(Perform(calls).value) else []
  }

  /**
   * The pipe delivers: bytes left by successful calls are executed without error
   * exactly when the calls were well numbered, and then the decoder gets exactly
   * the written payloads, in order, each under the binding it was written with.
   */
  lemma PipeDelivers(calls: seq<WorkerCall>, closing: bool)
    requires Perform(calls).Some?
    ensures var wire := Wire(calls, closing);
            && (RunService(Unbound, wire).outcome.Pass? <==> WellNumbered(calls))
            && (ForwardService(Unbound, wire).outcome.Pass? <==> WellNumbered(calls))
            && (WellNumbered(calls) ==> RunService(Unbound, wire).delivered == Deliveries(calls)
                                        && ForwardService(Unbound, wire).delivered == Deliveries(calls))
  {
    hide ControlBytes;
    var w := Perform(calls).value;
    var rest := if closing then ClosingBytes(w) else [];
    ServiceFollows(calls, rest);
    ReadAheadAgrees(Unbound, w.written + rest);
    ReadsControl(Shutdown, []);
    assert ControlBytes(Shutdown) + [] == ControlBytes(Shutdown);
  }
}
