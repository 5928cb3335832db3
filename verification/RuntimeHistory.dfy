/**
 * The shared runtime told by its events: what every entry of the ledger has
 * become, which request is admitted, and what the published state says.
 */
module RuntimeHistory {
  import opened Wrappers
  import opened Bytes
  import C = Camera
  import opened ServiceRuntime
  import P = SessionPolicy

  // ----------------------------------------------------------------- entries

  /** What one event makes of an entry that is still pending: its own report, or the cancellation of a start or a camera control. */
  function Becomes(entry: Operation, event: Event): Operation
  {
    if !entry.state.Pending? then entry
    else if event.Finish? && event.finishedId == entry.id then
      Operation(entry.id, entry.intent, event.outcome, event.errorCode, event.message)
    else if event.Invalidate? && (entry.intent.RequestStart? || entry.intent.CameraControl?) then
      Operation(entry.id, entry.intent, Failed, Some(Cancelled), Some(CancelledByStop))
    else entry
  }

  /** What the events from `i` up to `n` make of it. */
  function BecomesBy(entry: Operation, events: seq<Event>, i: nat, n: nat): Operation
    requires i <= n <= |events|
    decreases n
  {
    if i == n then entry else Becomes(BecomesBy(entry, events, i, n - 1), events[n - 1])
  }

  /** Without an arrival, every entry becomes what it is told. */
  predicate TellsEach(before: seq<Operation>, after: seq<Operation>, event: Event)
  {
    |after| == |before| && forall k :: 0 <= k < |before| ==> after[k] == Becomes(before[k], event)
  }

  lemma FinishTells(r: Runtime, event: Event)
    requires event.Finish? && DistinctIds(r.operations)
    ensures TellsEach(r.operations, After(r, event).operations, event)
  {
  }

  lemma StepTells(r: Runtime, event: Event)
    requires !Arrives(r, event) && DistinctIds(r.operations)
    ensures TellsEach(r.operations, After(r, event).operations, event)
  {
    hide LastCancelled, Find, Newest, Active;
    if event.Finish? {
      FinishTells(r, event);
    }
  }

  lemma StepTellsEntries(r: Runtime, event: Event, arrivals: nat, a: nat)
    requires Bounded(r.operations, arrivals) && a < arrivals
    requires IsListed(After(r, event).operations, arrivals + if Arrives(r, event) then 1 else 0, a)
    ensures IsListed(r.operations, arrivals, a)
    ensures EntryOf(After(r, event).operations, arrivals + if Arrives(r, event) then 1 else 0, a) ==
            Becomes(EntryOf(r.operations, arrivals, a), event)
  {
    hide After, Arrives, Becomes;
    StaysBounded(r, event, arrivals);
    if Arrives(r, event) {
      StepArrives(r, event);
      ArrivalTellsNothing(r, event, EntryOf(r.operations, arrivals, a));
    } else {
      StepTells(r, event);
    }
  }

  lemma ArrivalTellsNothing(r: Runtime, event: Event, entry: Operation)
    requires Arrives(r, event)
    ensures Becomes(entry, event) == entry
  {
  }

  lemma OneStepLaterTold(begin: P.SessionSnapshot, events: seq<Event>, n: nat, a: nat)
    requires n < |events| && Listed(begin, events, n + 1, a) && a < Arrivals(begin, events, n)
    ensures Listed(begin, events, n, a)
    ensures Entry(begin, events, n + 1, a) == Becomes(Entry(begin, events, n, a), events[n])
  {
    hide After, Arrives, At, Arrivals, Bounded, IsListed, EntryOf, Becomes;
    LedgerIsBounded(begin, events, n);
    Unfold(begin, events, n);
    StepTellsEntries(At(begin, events, n), events[n], Arrivals(begin, events, n), a);
  }

  /**
   * An entry is, for as long as it is listed, what was reported of it: the first
   * report under its id since it arrived, or the first invalidation if that came
   * sooner and it is a start or a camera control.
   */
  lemma {:induction false} EntriesAsTold(begin: P.SessionSnapshot, events: seq<Event>, i: nat, n: nat)
    requires i < n <= |events| && Arrives(At(begin, events, i), events[i])
    requires Listed(begin, events, n, Arrivals(begin, events, i))
    ensures events[i].Enqueue?
    ensures Entry(begin, events, n, Arrivals(begin, events, i)) ==
            BecomesBy(Operation(events[i].id, events[i].intent, Pending, None, None), events, i + 1, n)
    decreases n
  {
    hide At, Arrivals, After, Arrives, Becomes, IsListed, EntryOf;
    var a := Arrivals(begin, events, i);
    ArrivesByEnqueue(At(begin, events, i), events[i]);
    Unfold(begin, events, i);
    if n == i + 1 {
      OneStepLater(begin, events, i, a);
    } else {
      ArrivalsGrow(begin, events, i + 1, n - 1);
      OneStepLaterTold(begin, events, n - 1, a);
      EntriesAsTold(begin, events, i, n - 1);
    }
  }

  // -------------------------------------------------------------- admission

  predicate ListsId(operations: seq<Operation>, id: C.text)
  {
    exists k :: 0 <= k < |operations| && operations[k].id == id
  }

  predicate ListsRequest(operations: seq<Operation>, id: C.text, intent: Intent)
  {
    exists k :: 0 <= k < |operations| && operations[k].id == id && operations[k].intent == intent
  }

  /** A listed id is admitted again for its own intent only, and any other needs 1 to 64 bytes. */
  lemma AdmitsExactly(begin: P.SessionSnapshot, events: seq<Event>, n: nat, id: C.text, intent: Intent)
    requires n <= |events|
    ensures var operations := At(begin, events, n).operations;
            Admission(At(begin, events, n), id, intent) ==
            if ListsRequest(operations, id, intent) then Ok(false)
            else if ListsId(operations, id) then Err(OperationIdConflict)
            else if 1 <= |id| <= 64 then Ok(true)
            else Err(InvalidOperationId)
  {
    hide At, Arrivals;
    LedgerIsBounded(begin, events, n);
  }

  /** A new start needs a trusted peer that is online, no capture, and an output that is ready. */
  lemma StartsExactly(begin: P.SessionSnapshot, events: seq<Event>, n: nat, id: C.text)
    requires n <= |events|
    ensures var r := At(begin, events, n);
            && (StartAdmission(r, id) == Ok(true) <==>
                && r.state.trust.Trusted? && r.state.connection.Online? && r.state.capture.Idle?
                && (r.state.output.ReadyNeutral? || r.state.output.ReadyLive?)
                && 1 <= |id| <= 64 && !ListsId(r.operations, id))
            && (StartAdmission(r, id) == Ok(false) <==> ListsRequest(r.operations, id, RequestStart))
  {
    hide At, Find;
    AdmitsExactly(begin, events, n, id, RequestStart);
    hide Admission;
    FindsListed(At(begin, events, n).operations, id);
  }

  lemma FindsListed(operations: seq<Operation>, id: C.text)
    ensures Find(operations, id) < |operations| <==> ListsId(operations, id)
  {
  }

  // ------------------------------------------------------------- last failure

  /** Entry `k` has failed in this step. */
  predicate FailsAt(before: seq<Operation>, after: seq<Operation>, k: nat)
    requires k < |before| == |after|
  {
    before[k].state.Pending? && after[k].state.Failed?
  }

  /** The last error is the last operation that failed in this step, a lost output, or what it was. */
  predicate ErrorIsLast(r: Runtime, event: Event, next: Runtime)
  {
    if event.SetOutputFailed? then
      next.lastError == Some(Operation(OUTPUT_ID, OutputSupervision, Failed, Some(OutputUnavailable), Some(Told(event.words))))
    else if event.Enqueue? || |next.operations| != |r.operations| then next.lastError == r.lastError
    else
      || (next.lastError == r.lastError && forall k :: 0 <= k < |r.operations| ==> !FailsAt(r.operations, next.operations, k))
      || (exists k :: 0 <= k < |r.operations| && FailsAt(r.operations, next.operations, k)
                      && (forall j :: k < j < |r.operations| ==> !FailsAt(r.operations, next.operations, j))
                      && next.lastError == Some(next.operations[k]))
  }


  lemma {:induction false} LastCancelledIsLast(operations: seq<Operation>) returns (k: nat)
    ensures LastCancelled(operations).None? ==> forall j :: 0 <= j < |operations| ==> !Cancellable(operations[j])
    ensures LastCancelled(operations).Some? ==>
              && k < |operations| && Cancellable(operations[k]) && LastCancelled(operations) == Some(Cancel(operations[k]))
              && forall j :: k < j < |operations| ==> !Cancellable(operations[j])
  {
    hide Cancellable, Cancel;
    k := 0;
    if operations != [] {
      var n := |operations| - 1;
      if Cancellable(operations[n]) {
        k := n;
      } else {
        k := LastCancelledIsLast(operations[..n]);
        assert forall j :: 0 <= j < n ==> operations[..n][j] == operations[j];
      }
    }
  }

  /** What the service names as its last error is the operation that failed last, or the output that was lost after it. */
  lemma LastErrorIsLast(r: Runtime, event: Event)
    ensures ErrorIsLast(r, event, After(r, event))
  {
    match event
    case Invalidate =>
      InvalidationErrs(r);
    case Finish(id, outcome, errorCode, message) =>
      FinishErrs(r, event);
    case _ =>
      hide Find, FailsAt;
      NothingFails(r.operations);
  }

  lemma NothingFails(operations: seq<Operation>)
    ensures forall k :: 0 <= k < |operations| ==> !FailsAt(operations, operations, k)
  {
  }

  lemma InvalidationErrs(r: Runtime)
    ensures ErrorIsLast(r, Invalidate, Invalidated(r))
  {
    var k := LastCancelledIsLast(r.operations);
    var next := Invalidated(r);
    assert forall j :: 0 <= j < |r.operations| ==> (FailsAt(r.operations, next.operations, j) <==> Cancellable(r.operations[j]));
    hide CancelAll, LastCancelled, FailsAt, Active;
    if LastCancelled(r.operations).Some? {
      assert FailsAt(r.operations, next.operations, k);
    }
  }

  lemma FinishErrs(r: Runtime, event: Event)
    requires event.Finish?
    ensures ErrorIsLast(r, event, After(r, event))
  {
    var next := After(r, event);
    var k := Find(r.operations, event.finishedId);
    if k < |r.operations| && r.operations[k].state.Pending? && event.outcome.Failed? {
      assert FailsAt(r.operations, next.operations, k);
    }
  }

  // ---------------------------------------------------------- published state

  /** Trust is that of the last published policy, unless it was revoked since. */
  function TrustBy(begin: P.SessionSnapshot, events: seq<Event>, n: nat): P.TrustState
    requires n <= |events|
  {
    if n == 0 then begin.trust
    else
      match events[n - 1]
      case Publish(policy) => policy.trust
      case Revoke => P.Revoked
      case _ => TrustBy(begin, events, n - 1)
  }

  function ConnectionBy(begin: P.SessionSnapshot, events: seq<Event>, n: nat): P.ConnectionState
    requires n <= |events|
  {
    if n == 0 then begin.connection
    else
      match events[n - 1]
      case Publish(policy) => policy.connection
      case Revoke => P.Offline
      case Disconnect => if TrustBy(begin, events, n - 1).Revoked? then P.Offline else P.Recovering
      case _ => ConnectionBy(begin, events, n - 1)
  }

  /** Capture is that of the last published policy, unless it was invalidated since. */
  function CaptureBy(begin: P.SessionSnapshot, events: seq<Event>, n: nat): (P.CaptureState, bool)
    requires n <= |events|
  {
    if n == 0 then (begin.capture, begin.captureArmed)
    else
      match events[n - 1]
      case Publish(policy) => (policy.capture, policy.captureArmed)
      case Invalidate => (P.Idle, false)
      case _ => CaptureBy(begin, events, n - 1)
  }

  /** The generation is that of the last published policy, one more for every running capture invalidated since. */
  function GenerationBy(begin: P.SessionSnapshot, events: seq<Event>, n: nat): u64
    requires n <= |events|
  {
    if n == 0 then begin.generation
    else
      var before := GenerationBy(begin, events, n - 1);
      match events[n - 1]
      case Publish(policy) => policy.generation
      case Invalidate =>
        if CaptureBy(begin, events, n - 1) == (P.Idle, false) then before else (before + 1) % (U64_MAX + 1)
      case _ => before
  }

  /** A lost output stays failed until it is set ready; a policy that knows of none does not hide one that is there. */
  function OutputBy(begin: P.SessionSnapshot, events: seq<Event>, n: nat): P.OutputState
    requires n <= |events|
  {
    if n == 0 then begin.output
    else
      var before := OutputBy(begin, events, n - 1);
      match events[n - 1]
      case SetOutputReady => P.ReadyNeutral
      case SetOutputFailed(_) => P.OutputFailed
      case Publish(policy) => if before.OutputFailed? || policy.output.Missing? then before else policy.output
      case Invalidate => if before.ReadyLive? then P.ReadyNeutral else before
      case _ => before
  }

  /** A report counts when it names the generation of an armed capture. */
  predicate IsCurrent(begin: P.SessionSnapshot, events: seq<Event>, n: nat, generation: u64)
    requires n <= |events|
  {
    CaptureBy(begin, events, n).1 && GenerationBy(begin, events, n) == generation
  }

  /** The last report of the camera that counted, unless a capture was invalidated since. */
  function CameraBy(begin: P.SessionSnapshot, events: seq<Event>, n: nat): Option<(C.Capabilities, C.Applied)>
    requires n <= |events|
  {
    if n == 0 then None
    else
      match events[n - 1]
      case Invalidate => None
      case PublishCamera(generation, capabilities, applied) =>
        if IsCurrent(begin, events, n - 1, generation) then Some((capabilities, applied)) else CameraBy(begin, events, n - 1)
      case _ => CameraBy(begin, events, n - 1)
  }

  function StatsBy(begin: P.SessionSnapshot, events: seq<Event>, n: nat): Option<CaptureStats>
    requires n <= |events|
  {
    if n == 0 then None
    else
      match events[n - 1]
      case Invalidate => None
      case PublishStats(generation, stats) =>
        if IsCurrent(begin, events, n - 1, generation) then Some(stats) else StatsBy(begin, events, n - 1)
      case _ => StatsBy(begin, events, n - 1)
  }

  predicate PeerAsTold(begin: P.SessionSnapshot, events: seq<Event>, n: nat, state: P.SessionSnapshot)
    requires n <= |events|
  {
    state.trust == TrustBy(begin, events, n) && state.connection == ConnectionBy(begin, events, n)
  }

  predicate CaptureAsTold(begin: P.SessionSnapshot, events: seq<Event>, n: nat, state: P.SessionSnapshot)
    requires n <= |events|
  {
    (state.capture, state.captureArmed) == CaptureBy(begin, events, n) && state.generation == GenerationBy(begin, events, n)
  }

  predicate SnapshotAsTold(begin: P.SessionSnapshot, events: seq<Event>, n: nat, state: P.SessionSnapshot)
    requires n <= |events|
  {
    && PeerAsTold(begin, events, n, state) && CaptureAsTold(begin, events, n, state)
    && state.output == OutputBy(begin, events, n)
  }

  predicate ReportsAsTold(begin: P.SessionSnapshot, events: seq<Event>, n: nat, r: Runtime)
    requires n <= |events|
  {
    && (match CameraBy(begin, events, n)
        case None => r.capabilities.None? && r.applied.None?
        case Some(report) => r.capabilities == Some(report.0) && r.applied == Some(report.1))
    && r.captureStats == StatsBy(begin, events, n)
  }

  lemma PeerTold(begin: P.SessionSnapshot, events: seq<Event>, n: nat, r: Runtime)
    requires n < |events| && PeerAsTold(begin, events, n, r.state)
    ensures PeerAsTold(begin, events, n + 1, After(r, events[n]).state)
  {
    hide Find, Newest, CancelAll, LastCancelled, Admission, Active;
  }

  lemma CaptureTold(begin: P.SessionSnapshot, events: seq<Event>, n: nat, r: Runtime)
    requires n < |events| && CaptureAsTold(begin, events, n, r.state)
    ensures CaptureAsTold(begin, events, n + 1, After(r, events[n]).state)
  {
    hide Find, Newest, CancelAll, LastCancelled, Admission;
  }

  lemma OutputTold(begin: P.SessionSnapshot, events: seq<Event>, n: nat, r: Runtime)
    requires n < |events| && r.state.output == OutputBy(begin, events, n)
    ensures After(r, events[n]).state.output == OutputBy(begin, events, n + 1)
  {
    hide Find, Newest, CancelAll, LastCancelled, Admission, Active;
  }

  lemma ReportsTold(begin: P.SessionSnapshot, events: seq<Event>, n: nat, r: Runtime)
    requires n < |events| && SnapshotAsTold(begin, events, n, r.state) && ReportsAsTold(begin, events, n, r)
    ensures ReportsAsTold(begin, events, n + 1, After(r, events[n]))
  {
    hide Find, Newest, CancelAll, LastCancelled, Admission, TrustBy, ConnectionBy, GenerationBy, OutputBy;
  }

  lemma NothingTold(begin: P.SessionSnapshot, events: seq<Event>)
    ensures SnapshotAsTold(begin, events, 0, begin) && ReportsAsTold(begin, events, 0, Started(begin))
  {
  }

  /** What is published after any events is what the last of them said. */
  lemma {:induction false} StateAsTold(begin: P.SessionSnapshot, events: seq<Event>, n: nat)
    requires n <= |events|
    ensures SnapshotAsTold(begin, events, n, At(begin, events, n).state)
    ensures ReportsAsTold(begin, events, n, At(begin, events, n))
    decreases n
  {
    hide After, PeerAsTold, CaptureAsTold, ReportsAsTold, OutputBy;
    if n == 0 {
      NothingTold(begin, events);
    } else {
      StateAsTold(begin, events, n - 1);
      PeerTold(begin, events, n - 1, At(begin, events, n - 1));
      CaptureTold(begin, events, n - 1, At(begin, events, n - 1));
      OutputTold(begin, events, n - 1, At(begin, events, n - 1));
      ReportsTold(begin, events, n - 1, At(begin, events, n - 1));
    }
  }
}
