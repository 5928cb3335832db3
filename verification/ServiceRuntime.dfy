/** The service's shared runtime: a bounded, deduplicating ledger of operations beside the published session state. */
module ServiceRuntime {
  import opened Wrappers
  import opened Bytes
  import opened Camera
  import P = SessionPolicy

  const MAX_OPERATIONS: nat := 32
  const MAX_OPERATION_ID: nat := 64

  datatype Intent = CameraControl | RequestStart | StopCapture | ForgetPeer | RunDiagnostics | OutputSupervision

  datatype OperationState = Pending | Succeeded | Failed

  datatype ErrorCode = Cancelled | OutputUnavailable | ServiceUnavailable | Coded(code: text)

  datatype Message = Told(words: text) | CancelledByStop | ReceiverStopped

  datatype Operation = Operation(
    id: text,
    intent: Intent,
    state: OperationState,
    errorCode: Option<ErrorCode>,
    message: Option<Message>)

  /** The ASCII bytes of "output", the id under which a lost output is reported. */
  const OUTPUT_ID: text := [111, 117, 116, 112, 117, 116]

  datatype IntentError =
    | OperationIdConflict | InvalidOperationId
    | PeerNotTrusted | PeerOffline | CaptureBusy | NoOutput
    | NoReceiver

  /** The last window of a running capture; durations are in milliseconds. */
  datatype CaptureStats = CaptureStats(
    windowMs: u64,
    framesWritten: u64,
    droppedQueueFramesTotal: u64,
    avgQueueDelayMs: real,
    avgOutputWriteMs: real,
    maxOutputWriteMs: real)

  datatype Runtime = Runtime(
    capabilities: Option<Capabilities>,
    applied: Option<Applied>,
    captureStats: Option<CaptureStats>,
    revision: u64,
    state: P.SessionSnapshot,
    operations: seq<Operation>,
    lastError: Option<Operation>)

  function Started(state: P.SessionSnapshot): Runtime
  {
    Runtime(None, None, None, 1, state, [], None)
  }

  function Advanced(r: Runtime): Runtime
  {
    r.(revision := SaturatingAdd(r.revision, 1))
  }

  // ---------------------------------------------------- what each call does

  /** The position of the operation called `id`, or the length of the list. */
  function Find(operations: seq<Operation>, id: text): (k: nat)
    ensures k <= |operations|
    ensures k < |operations| ==> operations[k].id == id
    ensures forall j :: 0 <= j < k ==> operations[j].id != id
  {
    if operations == [] then 0 else if operations[0].id == id then 0 else 1 + Find(operations[1..], id)
  }

  function NewOperation(id: text, intent: Intent): Operation
  {
    Operation(id, intent, Pending, None, None)
  }

  function Newest(operations: seq<Operation>): (r: seq<Operation>)
  {
    if |operations| > MAX_OPERATIONS then operations[|operations| - MAX_OPERATIONS..] else operations
  }

  /** Whether an operation is new; an id already listed must have the same intent. */
  function Admission(r: Runtime, id: text, intent: Intent): Result<bool, IntentError>
  {
    var k := Find(r.operations, id);
    if k < |r.operations| then
      if r.operations[k].intent == intent then Ok(false) else Err(OperationIdConflict)
    else if id == [] || |id| > MAX_OPERATION_ID then Err(InvalidOperationId)
    else Ok(true)
  }

  function Enqueued(r: Runtime, id: text, intent: Intent): Runtime
  {
    if Admission(r, id, intent) == Ok(true) then
      Advanced(r.(operations := Newest(r.operations + [NewOperation(id, intent)])))
    else r
  }

  function Finished(r: Runtime, id: text, state: OperationState, errorCode: Option<ErrorCode>, message: Option<Message>): Runtime
  {
    var k := Find(r.operations, id);
    if k == |r.operations| || !r.operations[k].state.Pending? then r
    else
      var operation := r.operations[k].(state := state, errorCode := errorCode, message := message);
      Advanced(r.(operations := r.operations[k := operation],
                  lastError := if state.Failed? then Some(operation) else r.lastError))
  }

  predicate Cancellable(operation: Operation)
  {
    (operation.intent.RequestStart? || operation.intent.CameraControl?) && operation.state.Pending?
  }

  function Cancel(operation: Operation): Operation
  {
    operation.(state := Failed, errorCode := Some(Cancelled), message := Some(CancelledByStop))
  }

  function CancelAll(operations: seq<Operation>): (r: seq<Operation>)
    ensures |r| == |operations|
    ensures forall k :: 0 <= k < |r| ==> r[k] == if Cancellable(operations[k]) then Cancel(operations[k]) else operations[k]
  {
    if operations == [] then []
    else
      var last := operations[|operations| - 1];
      CancelAll(operations[..|operations| - 1]) + [if Cancellable(last) then Cancel(last) else last]
  }

  function LastCancelled(operations: seq<Operation>): Option<Operation>
  {
    if operations == [] then None
    else
      var last := operations[|operations| - 1];
      if Cancellable(last) then Some(Cancel(last)) else LastCancelled(operations[..|operations| - 1])
  }

  predicate Active(state: P.SessionSnapshot)
  {
    !state.capture.Idle? || state.captureArmed
  }

  function Invalidated(r: Runtime): Runtime
  {
    var cancelled := LastCancelled(r.operations);
    var next := r.(
      capabilities := None, applied := None, captureStats := None,
      operations := CancelAll(r.operations),
      lastError := if cancelled.Some? then cancelled else r.lastError,
      state := r.state.(generation := if Active(r.state) then P.WrappingNext(r.state.generation) else r.state.generation,
                        capture := P.Idle, captureArmed := false, output := P.Neutral(r.state.output)));
    if Active(r.state) || cancelled.Some? then Advanced(next) else next
  }

  function Revoked(r: Runtime): Runtime
  {
    Advanced(r.(state := r.state.(trust := P.Revoked, connection := P.Offline)))
  }

  function Disconnected(r: Runtime): Runtime
  {
    Advanced(r.(state := r.state.(connection := if r.state.trust.Revoked? then P.Offline else P.Recovering)))
  }

  /** A published state keeps what the service knows of the output where the policy does not. */
  function Published(r: Runtime, policy: P.SessionSnapshot): Runtime
  {
    var keep := r.state.output.OutputFailed? || (policy.output.Missing? && !r.state.output.Missing?);
    var state := if keep then policy.(output := r.state.output) else policy;
    if r.state == state then r else Advanced(r.(state := state))
  }

  function OutputSet(r: Runtime): Runtime
  {
    if r.state.output.ReadyNeutral? then r else Advanced(r.(state := r.state.(output := P.ReadyNeutral)))
  }

  function OutputLost(r: Runtime, message: text): Runtime
  {
    Advanced(r.(state := r.state.(output := P.OutputFailed),
                lastError := Some(Operation(OUTPUT_ID, OutputSupervision, Failed, Some(OutputUnavailable), Some(Told(message))))))
  }

  function CameraSet(r: Runtime, generation: u64, capabilities: Capabilities, applied: Applied): Runtime
  {
    if r.state.generation != generation || !r.state.captureArmed then r
    else
      var next := r.(capabilities := Some(capabilities), applied := Some(applied));
      if next == r then r else Advanced(next)
  }

  function StatsSet(r: Runtime, generation: u64, stats: CaptureStats): Runtime
  {
    if r.state.generation != generation || !r.state.captureArmed then r
    else Advanced(r.(captureStats := Some(stats)))
  }

  /** The intent of a new operation is sent to the capture loop; when nobody receives it, the operation has failed. */
  function Sent(r: Runtime, id: text, received: bool): Runtime
  {
    if received then r else Finished(r, id, Failed, Some(ServiceUnavailable), Some(ReceiverStopped))
  }

  /** What the caller of a new operation is told. */
  function Answer(admission: Result<bool, IntentError>, received: bool): Result<bool, IntentError>
  {
    if admission == Ok(true) && !received then Err(NoReceiver) else admission
  }

  class ServiceRuntime {
    var capabilities: Option<Capabilities>
    var applied: Option<Applied>
    var captureStats: Option<CaptureStats>
    var revision: u64
    var state: P.SessionSnapshot
    var operations: seq<Operation>
    var lastError: Option<Operation>

    function State(): Runtime
      reads this
    {
      Runtime(capabilities, applied, captureStats, revision, state, operations, lastError)
    }

    constructor (policy: P.SessionSnapshot)
      ensures State() == Started(policy)
    {
      capabilities, applied, captureStats := None, None, None;
      revision, state, operations, lastError := 1, policy, [], None;
    }

    method Advance()
      modifies this`revision
      ensures State() == Advanced(old(State()))
    {
      revision := SaturatingAdd(revision, 1);
    }

    /** The first operation called `id`. */
    method Position(id: text) returns (k: nat)
      ensures k == Find(operations, id)
    {
      k := 0;
      while k < |operations| && operations[k].id != id
        invariant k <= |operations| && Find(operations, id) == k + Find(operations[k..], id)
      {
        assert operations[k..][1..] == operations[k + 1..];
        k := k + 1;
      }
    }

    method Enqueue(id: text, intent: Intent) returns (r: Result<bool, IntentError>)
      modifies this
      ensures r == Admission(old(State()), id, intent)
      ensures State() == Enqueued(old(State()), id, intent)
    {
      var k := Position(id);
      if k < |operations| {
        return if operations[k].intent == intent then Ok(false) else Err(OperationIdConflict);
      }
      if id == [] || |id| > MAX_OPERATION_ID {
        return Err(InvalidOperationId);
      }
      hide Find, Newest;
      operations := operations + [NewOperation(id, intent)];
      DropOldest();
      Advance();
      r := Ok(true);
    }

    /** The oldest operations leave the ledger while there are too many. */
    method DropOldest()
      modifies this`operations
      ensures operations == Newest(old(operations))
    {
      ghost var all := operations;
      while |operations| > MAX_OPERATIONS
        invariant |operations| <= |all| && operations == all[|all| - |operations|..]
        invariant |operations| >= MAX_OPERATIONS || operations == all
      {
        operations := operations[1..];
      }
    }

    method Finish(id: text, outcome: OperationState, errorCode: Option<ErrorCode>, message: Option<Message>)
      modifies this
      ensures State() == Finished(old(State()), id, outcome, errorCode, message)
    {
      var k := Position(id);
      if k == |operations| || !operations[k].state.Pending? {
        return;
      }
      var operation := operations[k].(state := outcome, errorCode := errorCode, message := message);
      operations := operations[k := operation];
      if outcome.Failed? {
        lastError := Some(operation);
      }
      Advance();
    }

    /** Cancels what is pending, and tells the last operation it cancelled. */
    method CancelPending() returns (cancelled: Option<Operation>)
      modifies this`operations
      ensures operations == CancelAll(old(operations)) && cancelled == LastCancelled(old(operations))
    {
      hide Cancellable, Cancel;
      cancelled := None;
      ghost var before := operations;
      for k := 0 to |operations|
        invariant |operations| == |before| && operations[k..] == before[k..]
        invariant operations[..k] == CancelAll(before[..k]) && cancelled == LastCancelled(before[..k])
      {
        assert before[..k + 1][..k] == before[..k] && before[k] == operations[k..][0];
        if Cancellable(operations[k]) {
          cancelled := Some(Cancel(operations[k]));
          operations := operations[k := Cancel(operations[k])];
        }
      }
      assert before[..|before|] == before && operations[..|before|] == operations;
    }

    method InvalidateStop()
      modifies this
      ensures State() == Invalidated(old(State()))
    {
      hide CancelAll, LastCancelled;
      applied, capabilities, captureStats := None, None, None;
      var active := !state.capture.Idle? || state.captureArmed;
      var cancelled := CancelPending();
      if cancelled.Some? {
        lastError := cancelled;
      }
      if active {
        state := state.(generation := P.WrappingNext(state.generation));
      }
      state := state.(capture := P.Idle, captureArmed := false);
      if state.output.ReadyLive? {
        state := state.(output := P.ReadyNeutral);
      }
      if active || cancelled.Some? {
        Advance();
      }
    }

    method InvalidateForget()
      modifies this
      ensures State() == Revoked(Invalidated(old(State())))
    {
      InvalidateStop();
      state := state.(trust := P.Revoked, connection := P.Offline);
      Advance();
    }

    method ConnectionLost()
      modifies this
      ensures State() == Disconnected(Invalidated(old(State())))
    {
      InvalidateStop();
      state := state.(connection := if state.trust.Revoked? then P.Offline else P.Recovering);
      Advance();
    }

    method PublishPolicy(policy: P.SessionSnapshot)
      modifies this
      ensures State() == Published(old(State()), policy)
    {
      var next := policy;
      if state.output.OutputFailed? || (next.output.Missing? && !state.output.Missing?) {
        next := next.(output := state.output);
      }
      if state == next {
        return;
      }
      state := next;
      Advance();
    }

    method SetOutputReady()
      modifies this
      ensures State() == OutputSet(old(State()))
    {
      if state.output.ReadyNeutral? {
        return;
      }
      state := state.(output := P.ReadyNeutral);
      Advance();
    }

    method SetOutputFailed(message: text)
      modifies this
      ensures State() == OutputLost(old(State()), message)
    {
      state := state.(output := P.OutputFailed);
      lastError := Some(Operation(OUTPUT_ID, OutputSupervision, Failed, Some(OutputUnavailable), Some(Told(message))));
      Advance();
    }

    method PublishCamera(generation: u64, caps: Capabilities, settings: Applied)
      modifies this
      ensures State() == CameraSet(old(State()), generation, caps, settings)
    {
      if state.generation != generation || !state.captureArmed {
        return;
      }
      var changed := capabilities != Some(caps) || applied != Some(settings);
      capabilities, applied := Some(caps), Some(settings);
      if changed {
        Advance();
      }
    }

    method PublishCaptureStats(generation: u64, stats: CaptureStats)
      modifies this
      ensures State() == StatsSet(old(State()), generation, stats)
    {
      if state.generation != generation || !state.captureArmed {
        return;
      }
      captureStats := Some(stats);
      Advance();
    }

    /** Fails a new operation whose intent nobody received. */
    method Send(id: text, received: bool)
      modifies this
      ensures State() == Sent(old(State()), id, received)
    {
      if !received {
        Finish(id, Failed, Some(ServiceUnavailable), Some(ReceiverStopped));
      }
    }

    /** A new stop invalidates at once; a repeated one changes nothing. */
    method Stop(id: text, received: bool) returns (r: Result<bool, IntentError>)
      modifies this
      ensures r == Answer(Admission(old(State()), id, StopCapture), received)
      ensures State() ==
              if Admission(old(State()), id, StopCapture) == Ok(true)
              then Sent(Invalidated(Enqueued(old(State()), id, StopCapture)), id, received) else old(State())
    {
      r := Enqueue(id, StopCapture);
      if r == Ok(true) {
        InvalidateStop();
        Send(id, received);
        r := if received then r else Err(NoReceiver);
      }
    }

    method Forget(id: text, received: bool) returns (r: Result<bool, IntentError>)
      modifies this
      ensures r == Answer(Admission(old(State()), id, ForgetPeer), received)
      ensures State() ==
              if Admission(old(State()), id, ForgetPeer) == Ok(true)
              then Sent(Revoked(Invalidated(Enqueued(old(State()), id, ForgetPeer))), id, received) else old(State())
    {
      r := Enqueue(id, ForgetPeer);
      if r == Ok(true) {
        InvalidateForget();
        Send(id, received);
        r := if received then r else Err(NoReceiver);
      }
    }

    /** A start is admitted again under its own id whatever the state, and otherwise only when it could begin. */
    method AskToStart(id: text, received: bool) returns (r: Result<bool, IntentError>)
      modifies this
      ensures r == Answer(StartAdmission(old(State()), id), received)
      ensures State() ==
              if StartAdmission(old(State()), id) == Ok(true)
              then Sent(Enqueued(old(State()), id, RequestStart), id, received) else old(State())
    {
      var k := Position(id);
      if k < |operations| {
        return if operations[k].intent.RequestStart? then Ok(false) else Err(OperationIdConflict);
      }
      if !state.trust.Trusted? {
        return Err(PeerNotTrusted);
      }
      if !state.connection.Online? {
        return Err(PeerOffline);
      }
      if !state.capture.Idle? {
        return Err(CaptureBusy);
      }
      if state.output.Missing? || state.output.OutputFailed? {
        return Err(NoOutput);
      }
      r := Enqueue(id, RequestStart);
      if r == Ok(true) {
        Send(id, received);
        r := if received then r else Err(NoReceiver);
      }
    }
  }

  function StartAdmission(r: Runtime, id: text): Result<bool, IntentError>
  {
    var k := Find(r.operations, id);
    if k < |r.operations| then Admission(r, id, RequestStart)
    else if !r.state.trust.Trusted? then Err(PeerNotTrusted)
    else if !r.state.connection.Online? then Err(PeerOffline)
    else if !r.state.capture.Idle? then Err(CaptureBusy)
    else if r.state.output.Missing? || r.state.output.OutputFailed? then Err(NoOutput)
    else Admission(r, id, RequestStart)
  }

  // ------------------------------------------------------------------- runs

  /** One event is one critical section, so that calls from several threads may interleave between events. */
  datatype Event =
    | Enqueue(id: text, intent: Intent)
    | Finish(finishedId: text, outcome: OperationState, errorCode: Option<ErrorCode>, message: Option<Message>)
    | Invalidate
    | Revoke
    | Disconnect
    | Publish(policy: P.SessionSnapshot)
    | SetOutputReady
    | SetOutputFailed(words: text)
    | PublishCamera(generation: u64, capabilities: Capabilities, applied: Applied)
    | PublishStats(statsGeneration: u64, stats: CaptureStats)

  function After(r: Runtime, event: Event): Runtime
  {
    match event
    case Enqueue(id, intent) => Enqueued(r, id, intent)
    case Finish(id, outcome, errorCode, message) => Finished(r, id, outcome, errorCode, message)
    case Invalidate => Invalidated(r)
    case Revoke => Revoked(r)
    case Disconnect => Disconnected(r)
    case Publish(policy) => Published(r, policy)
    case SetOutputReady => OutputSet(r)
    case SetOutputFailed(words) => OutputLost(r, words)
    case PublishCamera(generation, capabilities, applied) => CameraSet(r, generation, capabilities, applied)
    case PublishStats(generation, stats) => StatsSet(r, generation, stats)
  }

  /** The runtime after the first `n` events. */
  function At(begin: P.SessionSnapshot, events: seq<Event>, n: nat): Runtime
    requires n <= |events|
    decreases n
  {
    if n == 0 then Started(begin) else After(At(begin, events, n - 1), events[n - 1])
  }

  /** How many operations the first `n` events added. */
  function Arrivals(begin: P.SessionSnapshot, events: seq<Event>, n: nat): nat
    requires n <= |events|
    decreases n
  {
    if n == 0 then 0
    else Arrivals(begin, events, n - 1) + if Arrives(At(begin, events, n - 1), events[n - 1]) then 1 else 0
  }

  predicate Arrives(r: Runtime, event: Event)
  {
    event.Enqueue? && Admission(r, event.id, event.intent) == Ok(true)
  }

  predicate DistinctIds(operations: seq<Operation>)
  {
    forall i, j :: 0 <= i < j < |operations| ==> operations[i].id != operations[j].id
  }

  /** The same operation, unchanged once it has left pending. */
  predicate Settles(before: Operation, after: Operation)
  {
    before.id == after.id && before.intent == after.intent && (!before.state.Pending? ==> after == before)
  }

  predicate SettlesEach(before: seq<Operation>, after: seq<Operation>)
  {
    |after| == |before| && forall k :: 0 <= k < |before| ==> Settles(before[k], after[k])
  }

  /** Without an arrival the ledger keeps its entries in place, each settling. */
  lemma StepSettles(r: Runtime, event: Event)
    requires !Arrives(r, event)
    ensures SettlesEach(r.operations, After(r, event).operations)
  {
    hide LastCancelled, CancelAll, Find, Newest, Active;
  }

  lemma StepArrives(r: Runtime, event: Event)
    requires Arrives(r, event)
    ensures After(r, event).operations == Newest(r.operations + [NewOperation(event.id, event.intent)])
    ensures forall k :: 0 <= k < |r.operations| ==> r.operations[k].id != event.id
  {
  }

  lemma Unfold(begin: P.SessionSnapshot, events: seq<Event>, n: nat)
    requires n < |events|
    ensures At(begin, events, n + 1) == After(At(begin, events, n), events[n])
    ensures Arrivals(begin, events, n + 1) ==
            Arrivals(begin, events, n) + if Arrives(At(begin, events, n), events[n]) then 1 else 0
  {
    hide After, Arrives;
  }

  /** At most 32 entries with distinct ids, and all of the arrivals while there are no more than that. */
  predicate Bounded(operations: seq<Operation>, arrivals: nat)
  {
    DistinctIds(operations) && |operations| == if arrivals <= MAX_OPERATIONS then arrivals else MAX_OPERATIONS
  }

  lemma StaysBounded(r: Runtime, event: Event, arrivals: nat)
    requires Bounded(r.operations, arrivals)
    ensures Bounded(After(r, event).operations, arrivals + if Arrives(r, event) then 1 else 0)
  {
    hide After, Arrives;
    if Arrives(r, event) {
      StepArrives(r, event);
    } else {
      StepSettles(r, event);
    }
  }

  lemma NothingArrived(begin: P.SessionSnapshot, events: seq<Event>)
    ensures Bounded(At(begin, events, 0).operations, Arrivals(begin, events, 0))
  {
  }

  lemma {:induction false} LedgerIsBounded(begin: P.SessionSnapshot, events: seq<Event>, n: nat)
    requires n <= |events|
    ensures Bounded(At(begin, events, n).operations, Arrivals(begin, events, n))
    decreases n
  {
    hide *;
    if n == 0 {
      NothingArrived(begin, events);
    } else {
      LedgerIsBounded(begin, events, n - 1);
      Unfold(begin, events, n - 1);
      StaysBounded(At(begin, events, n - 1), events[n - 1], Arrivals(begin, events, n - 1));
    }
  }

  /** Arrival number `a` of `arrivals` is still listed. */
  predicate IsListed(operations: seq<Operation>, arrivals: nat, a: nat)
  {
    arrivals - |operations| <= a < arrivals
  }

  /** Its entry. */
  function EntryOf(operations: seq<Operation>, arrivals: nat, a: nat): Operation
    requires IsListed(operations, arrivals, a)
  {
    operations[a - (arrivals - |operations|)]
  }

  /** Arrival number `a` is still listed after `n` events. */
  predicate Listed(begin: P.SessionSnapshot, events: seq<Event>, n: nat, a: nat)
    requires n <= |events|
  {
    IsListed(At(begin, events, n).operations, Arrivals(begin, events, n), a)
  }

  /** The entry of arrival number `a` after `n` events. */
  function Entry(begin: P.SessionSnapshot, events: seq<Event>, n: nat, a: nat): Operation
    requires n <= |events| && Listed(begin, events, n, a)
  {
    EntryOf(At(begin, events, n).operations, Arrivals(begin, events, n), a)
  }

  /** The oldest entries go first: what is listed after a step was listed before it, unless it is the new arrival. */
  lemma StepKeepsEntries(r: Runtime, event: Event, arrivals: nat, a: nat)
    requires Bounded(r.operations, arrivals)
    requires IsListed(After(r, event).operations, arrivals + if Arrives(r, event) then 1 else 0, a)
    ensures var now := EntryOf(After(r, event).operations, arrivals + if Arrives(r, event) then 1 else 0, a);
            if a < arrivals then IsListed(r.operations, arrivals, a) && Settles(EntryOf(r.operations, arrivals, a), now)
            else event.Enqueue? && now == NewOperation(event.id, event.intent)
  {
    hide After, Arrives;
    StaysBounded(r, event, arrivals);
    if Arrives(r, event) {
      StepArrives(r, event);
      ArrivesByEnqueue(r, event);
    } else {
      StepSettles(r, event);
    }
  }

  lemma OneStepLater(begin: P.SessionSnapshot, events: seq<Event>, n: nat, a: nat)
    requires n < |events| && Listed(begin, events, n + 1, a)
    ensures if a < Arrivals(begin, events, n)
            then Listed(begin, events, n, a) && Settles(Entry(begin, events, n, a), Entry(begin, events, n + 1, a))
            else events[n].Enqueue? && Entry(begin, events, n + 1, a) == NewOperation(events[n].id, events[n].intent)
  {
    hide After, Arrives, At, Arrivals, Bounded, IsListed, EntryOf, Settles;
    LedgerIsBounded(begin, events, n);
    Unfold(begin, events, n);
    StepKeepsEntries(At(begin, events, n), events[n], Arrivals(begin, events, n), a);
  }

  lemma ArrivesByEnqueue(r: Runtime, event: Event)
    requires Arrives(r, event)
    ensures event.Enqueue?
  {
  }

  /**
   * An entry keeps its id and intent as long as it is listed, leaves pending
   * at most once, and never changes again; once gone it does not return.
   */
  lemma {:induction false} EntriesSettleOnce(begin: P.SessionSnapshot, events: seq<Event>, i: nat, j: nat, a: nat)
    requires i <= j <= |events| && a < Arrivals(begin, events, i) && Listed(begin, events, j, a)
    ensures Listed(begin, events, i, a) && Settles(Entry(begin, events, i, a), Entry(begin, events, j, a))
    decreases j
  {
    if i < j {
      hide *;
      ArrivalsGrow(begin, events, i, j - 1);
      OneStepLater(begin, events, j - 1, a);
      EntriesSettleOnce(begin, events, i, j - 1, a);
      SettlesOn(Entry(begin, events, i, a), Entry(begin, events, j - 1, a), Entry(begin, events, j, a));
    } else {
      hide At, Arrivals;
    }
  }

  lemma SettlesOn(before: Operation, between: Operation, after: Operation)
    requires Settles(before, between) && Settles(between, after)
    ensures Settles(before, after)
  {
  }

  lemma {:induction false} ArrivalsGrow(begin: P.SessionSnapshot, events: seq<Event>, i: nat, j: nat)
    requires i <= j <= |events|
    ensures Arrivals(begin, events, i) <= Arrivals(begin, events, j)
    decreases j
  {
    hide *;
    if i < j {
      Unfold(begin, events, j - 1);
      assert Arrivals(begin, events, j - 1) <= Arrivals(begin, events, j);
      ArrivalsGrow(begin, events, i, j - 1);
    }
  }

  lemma NothingPendingAfter(r: Runtime, arrivals: nat, a: nat)
    requires IsListed(Invalidated(r).operations, arrivals, a)
    ensures !Cancellable(EntryOf(Invalidated(r).operations, arrivals, a))
  {
  }

  /** No start or camera control that arrived before a stop's invalidation is ever pending after it. */
  lemma StopSettlesStarts(begin: P.SessionSnapshot, events: seq<Event>, j: nat, k: nat, a: nat)
    requires j < k <= |events| && events[j].Invalidate?
    requires a < Arrivals(begin, events, j) && Listed(begin, events, k, a)
    requires var intent := Entry(begin, events, k, a).intent; intent.RequestStart? || intent.CameraControl?
    ensures !Entry(begin, events, k, a).state.Pending?
  {
    hide At, Arrivals, IsListed, EntryOf;
    Unfold(begin, events, j);
    EntriesSettleOnce(begin, events, j + 1, k, a);
    NothingPendingAfter(At(begin, events, j), Arrivals(begin, events, j), a);
  }

  // ------------------------------------------------------------ output state

  /** A failed output stays failed through every publication and invalidation, until it is set ready. */
  lemma {:induction false} FailureLasts(begin: P.SessionSnapshot, events: seq<Event>, i: nat, j: nat)
    requires i <= j <= |events| && At(begin, events, i).state.output.OutputFailed?
    requires forall k :: i <= k < j ==> !events[k].SetOutputReady?
    ensures At(begin, events, j).state.output.OutputFailed?
    decreases j
  {
    if i < j {
      FailureLasts(begin, events, i, j - 1);
      FailureKept(At(begin, events, j - 1), events[j - 1]);
    }
  }

  lemma FailureKept(r: Runtime, event: Event)
    requires r.state.output.OutputFailed? && !event.SetOutputReady?
    ensures After(r, event).state.output.OutputFailed?
  {
  }

  // -------------------------------------------------------------- revisions

  /** An invalidation of an idle service with nothing to cancel, that still drops or neutralizes something. */
  predicate SilentInvalidation(r: Runtime, event: Event)
  {
    && event.Invalidate? && !Active(r.state) && LastCancelled(r.operations).None?
    && (r.capabilities.Some? || r.applied.Some? || r.captureStats.Some? || r.state.output.ReadyLive?)
  }

  lemma {:induction false} NothingToCancel(operations: seq<Operation>)
    requires LastCancelled(operations).None?
    ensures CancelAll(operations) == operations
  {
    if operations != [] {
      NothingToCancel(operations[..|operations| - 1]);
    }
  }

  /**
   * Below saturation, a step that changes anything takes a new revision,
   * which is what wakes the watchers, except for a silent invalidation.
   */
  lemma ChangesAreAnnounced(r: Runtime, event: Event)
    requires r.revision < U64_MAX
    ensures After(r, event) != r && After(r, event).revision == r.revision <==> SilentInvalidation(r, event)
    ensures r.revision <= After(r, event).revision <= r.revision + 1
  {
    if event.Invalidate? && LastCancelled(r.operations).None? {
      NothingToCancel(r.operations);
    }
  }

  const Armed := P.SessionSnapshot(P.Trusted, P.Online, P.Streaming, P.ReadyNeutral, 1, true)

  /** The policy publishes that the capture has stopped. */
  const StopPublished := Publish(Armed.(capture := P.Idle, captureArmed := false))

  /** The exception is reachable: a published stop leaves the camera's report to a later invalidation. */
  lemma SilentInvalidationHappens(capabilities: Capabilities, applied: Applied)
    ensures var events := [PublishCamera(1, capabilities, applied), StopPublished, Invalidate];
            && SilentInvalidation(At(Armed, events, 2), Invalidate)
            && At(Armed, events, 3) != At(Armed, events, 2) && At(Armed, events, 3).revision == At(Armed, events, 2).revision
  {
    var events := [PublishCamera(1, capabilities, applied), StopPublished, Invalidate];
    assert At(Armed, events, 1) == CameraSet(Started(Armed), 1, capabilities, applied);
    assert At(Armed, events, 2) == After(At(Armed, events, 1), StopPublished);
    ChangesAreAnnounced(At(Armed, events, 2), Invalidate);
  }

  /** So is it for the statistics, even when no camera report ever came. */
  lemma StatsVanishSilently(stats: CaptureStats)
    ensures var events := [PublishStats(1, stats), StopPublished, Invalidate];
            && At(Armed, events, 2).captureStats == Some(stats) && At(Armed, events, 2).capabilities.None?
            && At(Armed, events, 3).captureStats.None? && At(Armed, events, 3).revision == At(Armed, events, 2).revision
  {
    var events := [PublishStats(1, stats), StopPublished, Invalidate];
    assert At(Armed, events, 1) == StatsSet(Started(Armed), 1, stats);
    assert At(Armed, events, 2) == After(At(Armed, events, 1), StopPublished);
    ChangesAreAnnounced(At(Armed, events, 2), Invalidate);
  }
}
