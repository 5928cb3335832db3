/**
 * The phone's side of the command protocol, its server, and a network between
 * them that loses, delays and repeats messages.
 */
module PhoneProtocol {
  import opened Wrappers
  import opened Bytes
  import opened Camera
  import opened CameraSession

  datatype Phase = Connecting | Streaming | Finished

  /** Where the phone's one heartbeat cycle stands. */
  datatype Cycle =
    | Idle
    | AwaitingState(request: nat)
    | Applying
    | Acknowledging
    | AwaitingReceipt(request: nat)

  /** `pendingId` is the remote command the phone has taken on; empty when there is none. */
  datatype Phone = Phone(phase: Phase, pendingId: text, pendingError: text, cycle: Cycle)

  datatype Request = Request(
    capabilities: Option<Capabilities>,
    applied: Option<Applied>,
    commandId: Option<text>,
    error: Option<text>)

  /** `resolved` is history: how many accepted commands were resolved when the snapshot was taken. */
  datatype Reply = Refused | Snapshot(stopped: bool, pending: Option<Command>, resolved: nat)

  datatype Response = Response(request: nat, reply: Reply)

  /** How an apply step ended. */
  datatype Ending = Succeeded | Failed(error: text) | Aborted

  /** The apply step of the accepted command at `position` has ended. */
  datatype Ended = Ended(position: nat, ending: Ending)

  /** The server resolved the accepted command at `position` by an acknowledgement, and shows `outcome`. */
  datatype Acknowledgement = Acknowledgement(position: nat, outcome: Option<CommandOutcome>)

  /**
   * `requests` and `responses` hold every message ever sent. The rest is
   * history: the ids of the accepted commands, the positions in it of the
   * commands whose apply step the phone started, the apply steps that ended,
   * and the acknowledgements the server took.
   */
  datatype System = System(
    server: Session,
    phone: Phone,
    requests: seq<Request>,
    responses: seq<Response>,
    accepted: seq<text>,
    applied: seq<nat>,
    ended: seq<Ended>,
    acknowledged: seq<Acknowledgement>)

  function Begin(sessionId: text, now: Instant): System
  {
    System(New(sessionId, now), Phone(Connecting, [], [], Idle), [], [], [], [], [], [])
  }

  datatype Step =
    | Serves(event: Event)
    | GoesLive
    | SendsState(capabilities: Option<Capabilities>, settings: Option<Applied>)
    | Delivers(request: nat, at: Instant)
    | Receives(response: nat)
    | ApplyEnds(ending: Ending)
    | SendsReceipt(capabilities: Option<Capabilities>, settings: Option<Applied>)
    | CycleFails
    | Finishes

  /** How many accepted commands are no longer pending. */
  function Resolved(s: System): nat
  {
    SaturatingSub(|s.accepted|, if s.server.pending.Some? then 1 else 0)
  }

  function FinishLocal(phone: Phone): Phone
  {
    Phone(Finished, [], [], Idle)
  }

  function Served(s: System, event: Event): System
  {
    s.(server := After(s.server, event),
       accepted := if event.Enqueue? && Accepts(s.server, event.command) then s.accepted + [event.command.commandId] else s.accepted)
  }

  function Update(s: System, request: Request): Heartbeat
  {
    Heartbeat(s.server.sessionId, request.capabilities, request.applied, request.commandId, request.error)
  }

  /** The server handles a request and answers with its state, or with an error status. */
  function Delivered(s: System, n: nat, now: Instant): System
    requires n < |s.requests|
  {
    var update := Update(s, s.requests[n]);
    var next := s.(server := Beaten(s.server, update, now));
    if BeatRefusal(s.server, update, now).Some? then next.(responses := s.responses + [Response(n, Refused)])
    else
      var reply := Snapshot(next.server.status.Stopped?, next.server.pending, Resolved(next));
      next.(responses := s.responses + [Response(n, reply)],
            acknowledged := if update.commandId.Some? then s.acknowledged + [Acknowledgement(Resolved(s), next.server.lastOutcome)]
                            else s.acknowledged)
  }

  /** The snapshot shows a command of this session that is still to be resolved. */
  predicate ShowsPending(sessionId: text, reply: Reply)
  {
    reply.Snapshot? && !reply.stopped
    && reply.pending.Some? && reply.pending.value.commandId != [] && reply.pending.value.sessionId == sessionId
  }

  /** The answer to a plain heartbeat makes the phone start an apply step. */
  predicate Adopts(phone: Phone, sessionId: text, reply: Reply)
  {
    ShowsPending(sessionId, reply) && phone.pendingId == [] && reply.pending.value.controls.stop != Some(true)
  }

  /** The answer to a plain heartbeat: adopt the pending command, acknowledge it again, or ignore it. */
  function TakeState(phone: Phone, sessionId: text, reply: Reply): Phone
  {
    if reply.Snapshot? && reply.stopped then FinishLocal(phone)
    else if !ShowsPending(sessionId, reply) then phone.(cycle := Idle)
    else if phone.pendingId == reply.pending.value.commandId then phone.(cycle := Acknowledging)
    else if phone.pendingId != [] then phone.(cycle := Idle)
    else if reply.pending.value.controls.stop == Some(true) then FinishLocal(phone)
    else phone.(pendingId := reply.pending.value.commandId, pendingError := [], cycle := Applying)
  }

  /** The answer to an acknowledgement: forget the command unless the server still has it pending. */
  function TakeReceipt(phone: Phone, reply: Reply): Phone
  {
    if reply.Refused? then phone.(cycle := Idle)
    else if reply.stopped then FinishLocal(phone)
    else if reply.pending.Some? && reply.pending.value.commandId == phone.pendingId then phone.(cycle := Idle)
    else phone.(pendingId := [], pendingError := [], cycle := Idle)
  }

  function EndApply(phone: Phone, ending: Ending): Phone
  {
    match ending
    case Succeeded => phone.(pendingError := [], cycle := Acknowledging)
    case Failed(error) => phone.(pendingError := error, cycle := Acknowledging)
    case Aborted => phone.(cycle := Idle)
  }

  /** What the phone does between two waits. Each cycle carries the generation it began in. */
  class PhoneSession {
    var sessionId: text
    var generation: nat
    var phase: Phase
    var pendingCommandId: text
    var pendingCommandError: text
    var cycle: Cycle

    function State(): Phone
      reads this
    {
      Phone(phase, pendingCommandId, pendingCommandError, cycle)
    }

    constructor (sessionId: text)
      ensures State() == Phone(Connecting, [], [], Idle) && this.sessionId == sessionId
    {
      this.sessionId, generation, phase := sessionId, 0, Connecting;
      pendingCommandId, pendingCommandError, cycle := [], [], Idle;
    }

    /** Starts a cycle unless one is under way. */
    method Pulse(current: nat, request: nat) returns (sent: bool)
      modifies this
      ensures sent == (current == old(generation) && old(phase).Streaming? && old(sessionId) != [] && old(cycle).Idle?)
      ensures State() == if sent then old(State()).(cycle := AwaitingState(request)) else old(State())
      ensures sessionId == old(sessionId) && generation == old(generation)
    {
      if current != generation || !phase.Streaming? || sessionId == [] || !cycle.Idle? {
        return false;
      }
      cycle := AwaitingState(request);
      sent := true;
    }

    method Finish()
      modifies this
      ensures State() == FinishLocal(old(State())) && sessionId == [] && generation == old(generation) + 1
    {
      generation := generation + 1;
      phase, sessionId := Finished, [];
      pendingCommandId, pendingCommandError, cycle := [], [], Idle;
    }

    /** The heartbeat was answered; `apply` tells the caller to start the apply step. */
    method TakeStateReply(current: nat, reply: Reply) returns (apply: bool)
      requires cycle.AwaitingState?
      modifies this
      ensures var inForce := current == old(generation) && old(phase).Streaming?;
              && apply == (inForce && Adopts(old(State()), old(sessionId), reply))
              && (inForce ==> State() == TakeState(old(State()), old(sessionId), reply))
              && (!inForce ==> State() == old(State()).(cycle := Idle))
    {
      cycle, apply := Idle, false;
      if current != generation || !phase.Streaming? || reply.Refused? {
        return;
      }
      if reply.stopped {
        Finish();
        return;
      }
      if reply.pending.Some? && reply.pending.value.commandId != [] && reply.pending.value.sessionId == sessionId {
        apply := ApplyRemoteCommand(reply.pending.value);
      }
    }

    method ApplyRemoteCommand(command: Command) returns (apply: bool)
      requires command.commandId != [] && cycle.Idle?
      modifies this
      ensures State() == TakeState(old(State()), command.sessionId, Snapshot(false, Some(command), 0))
      ensures apply == Adopts(old(State()), command.sessionId, Snapshot(false, Some(command), 0))
    {
      if pendingCommandId == command.commandId {
        cycle := Acknowledging;
        return false;
      }
      if pendingCommandId != [] {
        return false;
      }
      pendingCommandId, pendingCommandError := command.commandId, [];
      if command.controls.stop == Some(true) {
        Finish();
        return false;
      }
      cycle := Applying;
      apply := true;
    }

    method EndApplying(current: nat, ending: Ending)
      requires cycle.Applying?
      modifies this
      ensures current == old(generation) && old(phase).Streaming? ==> State() == EndApply(old(State()), ending)
      ensures !(current == old(generation) && old(phase).Streaming?) ==> State() == old(State()).(cycle := Idle)
    {
      cycle := Idle;
      if current != generation || !phase.Streaming? || ending.Aborted? {
        return;
      }
      pendingCommandError := if ending.Failed? then ending.error else [];
      cycle := Acknowledging;
    }

    method TakeReceiptReply(current: nat, reply: Reply)
      requires cycle.AwaitingReceipt?
      modifies this
      ensures current == old(generation) ==> State() == TakeReceipt(old(State()), reply)
      ensures current != old(generation) ==> State() == old(State()).(cycle := Idle)
    {
      cycle := Idle;
      if current != generation || reply.Refused? {
        return;
      }
      if reply.stopped {
        Finish();
        return;
      }
      if reply.pending.Some? && reply.pending.value.commandId == pendingCommandId {
        return;
      }
      pendingCommandId, pendingCommandError := [], [];
    }
  }

  function StateTaken(s: System, reply: Reply): System
  {
    s.(phone := TakeState(s.phone, s.server.sessionId, reply),
       applied := if Adopts(s.phone, s.server.sessionId, reply) then s.applied + [reply.resolved] else s.applied)
  }

  function Next(s: System, step: Step): Option<System>
  {
    match step
    case Serves(event) => if event.Beat? then None else Some(Served(s, event))
    case GoesLive =>
      if !s.phone.phase.Connecting? || s.server.status.Waiting? then None
      else Some(s.(phone := s.phone.(phase := Streaming)))
    case SendsState(caps, settings) =>
      if !s.phone.phase.Streaming? || !s.phone.cycle.Idle? then None
      else Some(s.(requests := s.requests + [Request(caps, settings, None, None)],
                   phone := s.phone.(cycle := AwaitingState(|s.requests|))))
    case Delivers(n, now) => if n >= |s.requests| then None else Some(Delivered(s, n, now))
    case Receives(k) =>
      if !s.phone.phase.Streaming? || k >= |s.responses| then None
      else if s.phone.cycle == AwaitingState(s.responses[k].request) then Some(StateTaken(s, s.responses[k].reply))
      else if s.phone.cycle == AwaitingReceipt(s.responses[k].request) then Some(s.(phone := TakeReceipt(s.phone, s.responses[k].reply)))
      else None
    case ApplyEnds(ending) =>
      if !s.phone.phase.Streaming? || !s.phone.cycle.Applying? then None
      else
        var ended := if s.applied == [] then s.ended else s.ended + [Ended(s.applied[|s.applied| - 1], ending)];
        Some(s.(phone := EndApply(s.phone, ending), ended := ended))
    case SendsReceipt(caps, settings) =>
      if !s.phone.phase.Streaming? || !s.phone.cycle.Acknowledging? then None
      else
        var error := if s.phone.pendingError == [] then None else Some(s.phone.pendingError);
        Some(s.(requests := s.requests + [Request(caps, settings, Some(s.phone.pendingId), error)],
                phone := s.phone.(cycle := AwaitingReceipt(|s.requests|))))
    case CycleFails =>
      if !s.phone.cycle.AwaitingState? && !s.phone.cycle.AwaitingReceipt? then None
      else Some(s.(phone := s.phone.(cycle := Idle)))
    case Finishes => Some(s.(phone := FinishLocal(s.phone)))
  }

  function Run(begin: System, steps: seq<Step>): Option<System>
    decreases |steps|
  {
    if steps == [] then Some(begin)
    else
      var before := Run(begin, steps[..|steps| - 1]);
      if before.None? then None else Next(before.value, steps[|steps| - 1])
  }

  // -------------------------------------------------------------- invariant

  /** The server's own invariants, and its history. */
  predicate ServerIsSound(s: System)
  {
    && PendingIsSound(s.server) && LiveIsSound(s.server)
    && s.server.seenIds == LastIds(s.accepted) && DistinctWindow(s.accepted)
    && (s.server.pending.Some? ==> s.accepted != [] && s.accepted[|s.accepted| - 1] == s.server.pending.value.commandId)
  }

  /** A snapshot tells at most what is so now: which commands are resolved, and which one was pending. */
  predicate SnapshotIsTrue(s: System, reply: Reply)
  {
    reply.Snapshot? ==>
      && reply.resolved <= Resolved(s)
      && (reply.pending.Some? ==> reply.resolved < |s.accepted| && s.accepted[reply.resolved] == reply.pending.value.commandId)
  }

  predicate MessagesAreTrue(s: System)
  {
    forall k :: 0 <= k < |s.responses| ==> s.responses[k].request < |s.requests| && SnapshotIsTrue(s, s.responses[k].reply)
  }

  predicate Increasing(xs: seq<nat>)
  {
    forall i, j :: 0 <= i < j < |xs| ==> xs[i] < xs[j]
  }

  /** One more than the newest command the phone has started to apply. */
  function High(s: System): nat
  {
    if s.applied == [] then 0 else s.applied[|s.applied| - 1] + 1
  }

  predicate AppliesAreTrue(s: System)
  {
    Increasing(s.applied) && forall i :: 0 <= i < |s.applied| ==> s.applied[i] < |s.accepted|
  }

  /** Every snapshot answering request `r` was taken after all the commands the phone applied were resolved. */
  predicate AnswersAreLate(s: System, r: nat)
  {
    forall k :: 0 <= k < |s.responses| && s.responses[k].request == r && s.responses[k].reply.Snapshot? ==>
      s.responses[k].reply.resolved >= High(s)
  }

  /** A phone that has no command taken on has seen all it applied resolved. */
  predicate PhoneIsCaughtUp(s: System)
  {
    && (s.phone.phase.Connecting? ==> s.applied == [])
    && (s.phone.phase.Streaming? || s.phone.cycle.Idle?)
    && (s.phone.phase.Streaming? && s.phone.pendingId == [] ==> Resolved(s) >= High(s))
    && (s.phone.cycle.AwaitingState? ==>
          s.phone.cycle.request < |s.requests| && (s.phone.pendingId == [] ==> AnswersAreLate(s, s.phone.cycle.request)))
    && (s.phone.cycle.AwaitingReceipt? ==>
          && s.phone.cycle.request < |s.requests|
          && s.requests[s.phone.cycle.request].commandId.Some?
          && AnswersAreLate(s, s.phone.cycle.request))
    && (s.phone.cycle.Applying? || s.phone.cycle.Acknowledging? ==> s.phone.pendingId != [])
  }

  /** At most the last apply step is still running, and only while the phone says so. */
  predicate EndsAreTrue(s: System)
  {
    && |s.ended| <= |s.applied| <= |s.ended| + 1
    && (forall i :: 0 <= i < |s.ended| ==> s.ended[i].position == s.applied[i])
    && (s.phone.phase.Streaming? && !s.phone.cycle.Applying? ==> |s.applied| == |s.ended|)
    && (s.phone.cycle.Applying? ==>
          && |s.applied| == |s.ended| + 1 && s.phone.pendingError == []
          && s.applied[|s.ended|] < |s.accepted| && s.accepted[s.applied[|s.ended|]] == s.phone.pendingId)
  }

  /** The error the phone reports after an apply step; empty when it reports none. */
  function ErrorOf(ending: Ending): text
  {
    if ending.Failed? then ending.error else []
  }

  /** `ended` is the end, with `error` to report, of a command called `id` at or before position `n`. */
  predicate EndsUnder(accepted: seq<text>, ended: Ended, id: text, n: int, error: text)
  {
    ended.position < |accepted| && ended.position <= n && accepted[ended.position] == id && ErrorOf(ended.ending) == error
  }

  /** The phone has ended the apply step of a command called `id`, at or before position `n`, with `error` to report. */
  predicate EndedUnder(s: System, id: text, n: int, error: text)
  {
    exists i :: 0 <= i < |s.ended| && EndsUnder(s.accepted, s.ended[i], id, n, error)
  }

  predicate ReceiptsAreEarned(s: System)
  {
    && (s.phone.pendingId != [] && !s.phone.cycle.Applying? ==>
          EndedUnder(s, s.phone.pendingId, |s.accepted|, s.phone.pendingError))
    && (forall r :: 0 <= r < |s.requests| && s.requests[r].commandId.Some? ==>
          EndedUnder(s, s.requests[r].commandId.value, |s.accepted|, s.requests[r].error.GetOr([])))
  }

  /** The outcome of the command called `id` says what an apply step with this error to report is worth. */
  predicate Reports(outcome: Option<CommandOutcome>, id: text, error: text)
  {
    && outcome.Some? && outcome.value.commandId == id
    && (if error != [] then outcome.value.verdict.Rejected? && outcome.value.message == Some(Told(error))
        else !outcome.value.verdict.Rejected?)
  }

  lemma OutcomeReports(command: Command, applied: Applied, error: Option<text>)
    ensures Reports(Some(OutcomeOf(command, applied, error)), command.commandId, error.GetOr([]))
  {
    hide ReflectedBy;
  }

  /** Some ended apply step of a command with the same id is the one the acknowledgement reports. */
  ghost predicate IsEarned(s: System, a: Acknowledgement)
  {
    && a.position < |s.accepted|
    && exists error :: EndedUnder(s, s.accepted[a.position], a.position, error) && Reports(a.outcome, s.accepted[a.position], error)
  }

  ghost predicate OutcomesAreEarned(s: System)
  {
    forall k :: 0 <= k < |s.acknowledged| ==> IsEarned(s, s.acknowledged[k])
  }

  ghost predicate Invariant(s: System)
  {
    && ServerIsSound(s) && MessagesAreTrue(s) && AppliesAreTrue(s)
    && PhoneIsCaughtUp(s) && EndsAreTrue(s) && ReceiptsAreEarned(s) && OutcomesAreEarned(s)
  }

  // ----------------------------------------------------------- server steps

  /** Only the server and the list of accepted commands differ, and more is resolved. */
  predicate Grows(s: System, next: System)
  {
    && next == s.(server := next.server, accepted := next.accepted)
    && |s.accepted| <= |next.accepted| && next.accepted[..|s.accepted|] == s.accepted
    && Resolved(s) <= Resolved(next)
  }

  lemma GrowthKeepsMessages(s: System, next: System)
    requires Grows(s, next) && MessagesAreTrue(s)
    ensures MessagesAreTrue(next)
  {
    forall k | 0 <= k < |next.responses| ensures SnapshotIsTrue(next, next.responses[k].reply) {
      assert SnapshotIsTrue(s, s.responses[k].reply);
    }
  }

  /** What ended stays ended while the histories grow. */
  lemma EarnedStays(s: System, next: System, id: text, n: int, m: int, error: text)
    requires s.ended <= next.ended && s.accepted <= next.accepted && n <= m && EndedUnder(s, id, n, error)
    ensures EndedUnder(next, id, m, error)
  {
    var i :| 0 <= i < |s.ended| && EndsUnder(s.accepted, s.ended[i], id, n, error);
    assert next.ended[i] == s.ended[i];
    assert EndsUnder(next.accepted, next.ended[i], id, m, error);
  }

  lemma OutcomesStay(s: System, next: System)
    requires s.ended <= next.ended && s.accepted <= next.accepted && OutcomesAreEarned(s) && next.acknowledged == s.acknowledged
    ensures OutcomesAreEarned(next)
  {
    hide EndedUnder, Reports;
    forall k | 0 <= k < |next.acknowledged| ensures IsEarned(next, next.acknowledged[k]) {
      var a := s.acknowledged[k];
      assert IsEarned(s, a);
      var error :| EndedUnder(s, s.accepted[a.position], a.position, error) && Reports(a.outcome, s.accepted[a.position], error);
      EarnedStays(s, next, s.accepted[a.position], a.position, a.position, error);
    }
  }

  lemma ReceiptsStay(s: System, next: System)
    requires s.ended <= next.ended && s.accepted <= next.accepted && ReceiptsAreEarned(s)
    requires next.requests == s.requests
    requires next.phone.pendingId != [] && !next.phone.cycle.Applying? ==>
               || EndedUnder(next, next.phone.pendingId, |next.accepted|, next.phone.pendingError)
               || (next.phone.pendingId == s.phone.pendingId && next.phone.pendingError == s.phone.pendingError && !s.phone.cycle.Applying?)
    ensures ReceiptsAreEarned(next)
  {
    hide EndedUnder;
    if s.phone.pendingId != [] && !s.phone.cycle.Applying? {
      EarnedStays(s, next, s.phone.pendingId, |s.accepted|, |next.accepted|, s.phone.pendingError);
    }
    forall r | 0 <= r < |s.requests| && s.requests[r].commandId.Some?
      ensures EndedUnder(next, s.requests[r].commandId.value, |next.accepted|, s.requests[r].error.GetOr([]))
    {
      EarnedStays(s, next, s.requests[r].commandId.value, |s.accepted|, |next.accepted|, s.requests[r].error.GetOr([]));
    }
  }

  lemma GrowthKeepsHistory(s: System, next: System)
    requires Grows(s, next)
    requires AppliesAreTrue(s) && PhoneIsCaughtUp(s) && EndsAreTrue(s) && ReceiptsAreEarned(s) && OutcomesAreEarned(s)
    ensures AppliesAreTrue(next) && PhoneIsCaughtUp(next) && EndsAreTrue(next) && ReceiptsAreEarned(next) && OutcomesAreEarned(next)
  {
    OutcomesStay(s, next);
    ReceiptsStay(s, next);
    hide EndedUnder, Increasing, Resolved, ReceiptsAreEarned, OutcomesAreEarned;
    assert s.phone.cycle.Applying? ==> next.accepted[..|s.accepted|][s.applied[|s.ended|]] == next.accepted[s.applied[|s.ended|]];
  }

  lemma ServingKeepsServer(s: System, event: Event)
    requires ServerIsSound(s)
    ensures ServerIsSound(Served(s, event)) && Grows(s, Served(s, event))
  {
    StepKeepsPending(s.server, event);
    StepKeepsLive(s.server, event);
    StepMovesPending(s.server, event);
    ServingKeepsIds(s, event);
    hide PendingIsSound, LiveIsSound, After, Accepts, LastIds, DistinctWindow;
  }

  lemma ServingKeepsIds(s: System, event: Event)
    requires s.server.seenIds == LastIds(s.accepted) && DistinctWindow(s.accepted)
    ensures var next := Served(s, event); next.server.seenIds == LastIds(next.accepted) && DistinctWindow(next.accepted)
  {
    hide After, Accepts, LastIds, DistinctWindow, Remembered;
    StepRemembersIds(s.server, event);
    if event.Enqueue? && Accepts(s.server, event.command) {
      RememberedAreLast(s.accepted, event.command.commandId);
      AcceptedIsNew(s.server, event.command);
      WindowGrows(s.accepted, event.command.commandId);
    }
  }

  lemma ServingKeepsInvariant(s: System, event: Event)
    requires Invariant(s)
    ensures Invariant(Served(s, event))
  {
    var next := Served(s, event);
    ServingKeepsServer(s, event);
    hide ServerIsSound, MessagesAreTrue, AppliesAreTrue, PhoneIsCaughtUp, EndsAreTrue, ReceiptsAreEarned, OutcomesAreEarned, Grows, Served;
    GrowthKeepsMessages(s, next);
    GrowthKeepsHistory(s, next);
  }

  /** The server alone after handling request `n`. */
  function Handled(s: System, n: nat, now: Instant): System
    requires n < |s.requests|
  {
    s.(server := Beaten(s.server, Update(s, s.requests[n]), now))
  }

  lemma HandlingKeepsServer(s: System, n: nat, now: Instant)
    requires ServerIsSound(s) && n < |s.requests|
    ensures ServerIsSound(Handled(s, n, now)) && Grows(s, Handled(s, n, now))
  {
    var event := Beat(Update(s, s.requests[n]), now);
    assert After(s.server, event) == Handled(s, n, now).server;
    StepKeepsPending(s.server, event);
    StepKeepsLive(s.server, event);
    StepRemembersIds(s.server, event);
    StepMovesPending(s.server, event);
    hide PendingIsSound, LiveIsSound, After, Beaten;
  }

  /** A request is answered, and its acknowledgement, if it was one, taken. */
  function Answered(s: System, n: nat, reply: Reply, acknowledged: seq<Acknowledgement>): System
  {
    s.(responses := s.responses + [Response(n, reply)], acknowledged := acknowledged)
  }

  /** The acknowledgements stay, or gain one of the last accepted command that reports what request `n` says. */
  predicate Acknowledges(s: System, n: nat, acknowledged: seq<Acknowledgement>)
    requires n < |s.requests|
  {
    || acknowledged == s.acknowledged
    || (&& s.accepted != [] && |acknowledged| == |s.acknowledged| + 1 && acknowledged[..|s.acknowledged|] == s.acknowledged
        && var a, id := acknowledged[|s.acknowledged|], s.accepted[|s.accepted| - 1];
           && a.position == |s.accepted| - 1 && s.requests[n].commandId == Some(id)
           && Reports(a.outcome, id, s.requests[n].error.GetOr([])))
  }

  /** What an answered request adds: a true snapshot, late enough for an acknowledgement, and an earned outcome. */
  lemma AnswerKeepsInvariant(s: System, n: nat, reply: Reply, acknowledged: seq<Acknowledgement>)
    requires Invariant(s) && n < |s.requests| && Acknowledges(s, n, acknowledged)
    requires reply.Snapshot? ==> reply.resolved == Resolved(s) && reply.pending == s.server.pending
    requires reply.Snapshot? && s.requests[n].commandId.Some? ==> s.server.pending.None?
    ensures Invariant(Answered(s, n, reply, acknowledged))
  {
    var next := Answered(s, n, reply, acknowledged);
    assert ServerIsSound(next) && AppliesAreTrue(next) && EndsAreTrue(next);
    AnswerIsTrue(s, n, reply, acknowledged);
    AnswerIsLate(s, n, reply, acknowledged);
    AnswerIsEarned(s, n, reply, acknowledged);
  }

  lemma AnswerIsTrue(s: System, n: nat, reply: Reply, acknowledged: seq<Acknowledgement>)
    requires ServerIsSound(s) && MessagesAreTrue(s) && n < |s.requests|
    requires reply.Snapshot? ==> reply.resolved == Resolved(s) && reply.pending == s.server.pending
    ensures MessagesAreTrue(Answered(s, n, reply, acknowledged))
  {
    hide PendingIsSound, LiveIsSound, DistinctWindow;
    var next := Answered(s, n, reply, acknowledged);
    assert SnapshotIsTrue(next, reply);
    forall k | 0 <= k < |s.responses| ensures SnapshotIsTrue(next, next.responses[k].reply) {
      assert SnapshotIsTrue(s, s.responses[k].reply);
    }
  }

  lemma AnswerIsLate(s: System, n: nat, reply: Reply, acknowledged: seq<Acknowledgement>)
    requires AppliesAreTrue(s) && PhoneIsCaughtUp(s) && n < |s.requests|
    requires reply.Snapshot? ==> reply.resolved == Resolved(s)
    requires reply.Snapshot? && s.requests[n].commandId.Some? ==> s.server.pending.None?
    ensures PhoneIsCaughtUp(Answered(s, n, reply, acknowledged))
  {
    var next := Answered(s, n, reply, acknowledged);
    assert High(next) == High(s) <= |s.accepted|;
  }

  lemma AnswerIsEarned(s: System, n: nat, reply: Reply, acknowledged: seq<Acknowledgement>)
    requires ReceiptsAreEarned(s) && OutcomesAreEarned(s) && n < |s.requests| && Acknowledges(s, n, acknowledged)
    ensures var next := Answered(s, n, reply, acknowledged); ReceiptsAreEarned(next) && OutcomesAreEarned(next)
  {
    var next := Answered(s, n, reply, acknowledged);
    ReceiptsStay(s, next);
    OutcomesStay(s, next.(acknowledged := s.acknowledged));
    hide ReceiptsAreEarned, Reports;
    forall k | 0 <= k < |acknowledged| ensures IsEarned(next, acknowledged[k]) {
      if k < |s.acknowledged| {
        SameHistory(next.(acknowledged := s.acknowledged), next, acknowledged[k]);
      } else {
        NewestIsEarned(s, n);
        NewIsEarned(s, next, n, acknowledged[k]);
      }
    }
  }

  lemma SameHistory(s: System, next: System, a: Acknowledgement)
    requires next.ended == s.ended && next.accepted == s.accepted && IsEarned(s, a)
    ensures IsEarned(next, a)
  {
    hide Reports;
    var error :| EndedUnder(s, s.accepted[a.position], a.position, error) && Reports(a.outcome, s.accepted[a.position], error);
    EarnedStays(s, next, s.accepted[a.position], a.position, a.position, error);
  }

  lemma NewestIsEarned(s: System, n: nat)
    requires ReceiptsAreEarned(s) && n < |s.requests| && s.accepted != []
    requires s.requests[n].commandId == Some(s.accepted[|s.accepted| - 1])
    ensures EndedUnder(s, s.accepted[|s.accepted| - 1], |s.accepted| - 1, s.requests[n].error.GetOr([]))
  {
    var id, error := s.accepted[|s.accepted| - 1], s.requests[n].error.GetOr([]);
    assert EndedUnder(s, id, |s.accepted|, error);
    var i :| 0 <= i < |s.ended| && EndsUnder(s.accepted, s.ended[i], id, |s.accepted|, error);
    assert EndsUnder(s.accepted, s.ended[i], id, |s.accepted| - 1, error);
  }

  lemma NewIsEarned(s: System, next: System, n: nat, a: Acknowledgement)
    requires next.ended == s.ended && next.accepted == s.accepted != [] && a.position == |s.accepted| - 1 && n < |s.requests|
    requires var id, error := s.accepted[|s.accepted| - 1], s.requests[n].error.GetOr([]);
             EndedUnder(s, id, |s.accepted| - 1, error) && Reports(a.outcome, id, error)
    ensures IsEarned(next, a)
  {
    hide Reports;
    var id, error := s.accepted[|s.accepted| - 1], s.requests[n].error.GetOr([]);
    EarnedStays(s, next, id, |s.accepted| - 1, |s.accepted| - 1, error);
  }

  lemma DeliveryKeepsInvariant(s: System, n: nat, now: Instant)
    requires Invariant(s) && n < |s.requests|
    ensures Invariant(Delivered(s, n, now))
  {
    var handled := Handled(s, n, now);
    HandlingKeepsServer(s, n, now);
    GrowthKeepsMessages(s, handled);
    GrowthKeepsHistory(s, handled);
    var update := Update(s, s.requests[n]);
    if update.commandId.Some? && BeatRefusal(s.server, update, now).None? {
      ReceiptSettlesPending(s.server, update, now);
      OutcomeReports(s.server.pending.value, update.applied.value, update.error);
    }
    AcceptedNotEmpty(s);
    assert handled.accepted == s.accepted && handled.requests == s.requests;
    hide ServerIsSound, MessagesAreTrue, AppliesAreTrue, PhoneIsCaughtUp, EndsAreTrue, ReceiptsAreEarned, OutcomesAreEarned, Beaten, BeatRefusal, Reports, OutcomeOf;
    var next := Delivered(s, n, now);
    var last := next.responses[|s.responses|];
    assert next == Answered(handled, n, last.reply, next.acknowledged);
    AnswerKeepsInvariant(handled, n, last.reply, next.acknowledged);
  }

  lemma AcceptedNotEmpty(s: System)
    requires ServerIsSound(s)
    ensures s.server.pending.Some? ==> s.accepted != [] && s.accepted[|s.accepted| - 1] == s.server.pending.value.commandId
  {
  }

  // ------------------------------------------------------------ phone steps

  lemma TakingStateKeepsInvariant(s: System, k: nat)
    requires Invariant(s) && Next(s, Receives(k)).Some? && s.phone.cycle.AwaitingState?
    ensures Invariant(Next(s, Receives(k)).value)
  {
    var reply := s.responses[k].reply;
    if Adopts(s.phone, s.server.sessionId, reply) {
      AdoptingKeepsInvariant(s, k);
    } else {
      NotAdopting(s.phone, s.server.sessionId, reply);
      assert s.phone.phase.Streaming? && Next(s, Receives(k)).value == s.(phone := TakeState(s.phone, s.server.sessionId, reply));
      hide Next, TakeState, Adopts;
      IdlingKeepsInvariant(s, TakeState(s.phone, s.server.sessionId, reply));
    }
  }

  /** An answer that is not adopted ends the cycle, or leads to another acknowledgement, or ends the session. */
  lemma NotAdopting(phone: Phone, sessionId: text, reply: Reply)
    requires !Adopts(phone, sessionId, reply)
    ensures var next := TakeState(phone, sessionId, reply);
            || next == phone.(cycle := Idle)
            || (phone.pendingId != [] && next == phone.(cycle := Acknowledging))
            || next == FinishLocal(phone)
  {
  }

  lemma IdlingKeepsInvariant(s: System, phone: Phone)
    requires Invariant(s) && s.phone.phase.Streaming? && s.phone.cycle.AwaitingState?
    requires || phone == s.phone.(cycle := Idle)
             || (s.phone.pendingId != [] && phone == s.phone.(cycle := Acknowledging))
             || phone == FinishLocal(s.phone)
    ensures Invariant(s.(phone := phone))
  {
    hide PendingIsSound, LiveIsSound, DistinctWindow, LastIds, SnapshotIsTrue;
    var next := s.(phone := phone);
    SameMessages(s, next);
    SameEarned(s, next);
    hide ReceiptsAreEarned, OutcomesAreEarned, EndsAreTrue, MessagesAreTrue;
  }

  lemma AdoptingKeepsInvariant(s: System, k: nat)
    requires Invariant(s) && Next(s, Receives(k)).Some? && s.phone.cycle.AwaitingState?
    requires Adopts(s.phone, s.server.sessionId, s.responses[k].reply)
    ensures Invariant(Next(s, Receives(k)).value)
  {
    hide PendingIsSound, LiveIsSound, DistinctWindow, LastIds;
    var next := Next(s, Receives(k)).value;
    assert SnapshotIsTrue(s, s.responses[k].reply);
    SameMessages(s, next);
    AdoptingKeepsHistory(s, next, s.responses[k].reply.resolved);
    hide ReceiptsAreEarned, OutcomesAreEarned, EndsAreTrue, MessagesAreTrue;
  }

  lemma SameMessages(s: System, next: System)
    requires MessagesAreTrue(s)
    requires next.server == s.server && next.accepted == s.accepted && next.responses == s.responses && |next.requests| >= |s.requests|
    ensures MessagesAreTrue(next)
  {
    forall k | 0 <= k < |next.responses| ensures SnapshotIsTrue(next, next.responses[k].reply) {
      assert SnapshotIsTrue(s, s.responses[k].reply);
    }
  }

  /** Nothing but the phone differs, no apply step runs in it, and it has taken on nothing new. */
  lemma SameEarned(s: System, next: System)
    requires EndsAreTrue(s) && ReceiptsAreEarned(s) && OutcomesAreEarned(s)
    requires next == s.(phone := next.phone) && !next.phone.cycle.Applying?
    requires !s.phone.cycle.Applying? || !next.phone.phase.Streaming?
    requires next.phone.phase.Streaming? ==> s.phone.phase.Streaming? || s.applied == []
    requires || next.phone.pendingId == []
             || (next.phone.pendingId == s.phone.pendingId && next.phone.pendingError == s.phone.pendingError && !s.phone.cycle.Applying?)
    ensures EndsAreTrue(next) && ReceiptsAreEarned(next) && OutcomesAreEarned(next)
  {
    OutcomesStay(s, next);
    ReceiptsStay(s, next);
    hide ReceiptsAreEarned, OutcomesAreEarned;
  }

  lemma AdoptingKeepsHistory(s: System, next: System, n: nat)
    requires AppliesAreTrue(s) && EndsAreTrue(s) && ReceiptsAreEarned(s) && OutcomesAreEarned(s)
    requires n < |s.accepted| && n >= High(s) && s.phone.phase.Streaming? && !s.phone.cycle.Applying?
    requires next == s.(phone := next.phone, applied := s.applied + [n])
    requires next.phone.pendingId == s.accepted[n] && next.phone.pendingError == [] && next.phone.cycle.Applying?
    ensures AppliesAreTrue(next) && EndsAreTrue(next) && ReceiptsAreEarned(next) && OutcomesAreEarned(next)
  {
    OutcomesStay(s, next);
    ReceiptsStay(s, next);
    hide ReceiptsAreEarned, OutcomesAreEarned;
    assert next.applied[|s.applied|] == n;
  }

  /** The running apply step ends, and the phone keeps the error to report. */
  lemma EndingKeepsInvariant(s: System, ending: Ending)
    requires Invariant(s) && Next(s, ApplyEnds(ending)).Some?
    ensures Invariant(Next(s, ApplyEnds(ending)).value)
  {
    hide PendingIsSound, LiveIsSound, DistinctWindow, LastIds;
    var next := Next(s, ApplyEnds(ending)).value;
    SameMessages(s, next);
    var last := Ended(s.applied[|s.ended|], ending);
    assert next.ended == s.ended + [last];
    assert EndsUnder(next.accepted, last, s.phone.pendingId, |s.accepted|, ErrorOf(ending));
    assert next.ended[|s.ended|] == last;
    assert EndedUnder(next, next.phone.pendingId, |next.accepted|, next.phone.pendingError);
    OutcomesStay(s, next);
    ReceiptsStay(s, next);
    hide ReceiptsAreEarned, OutcomesAreEarned, EndedUnder;
  }

  lemma TakingReceiptKeepsInvariant(s: System, k: nat)
    requires Invariant(s) && Next(s, Receives(k)).Some? && s.phone.cycle.AwaitingReceipt?
    ensures Invariant(Next(s, Receives(k)).value)
  {
    hide PendingIsSound, LiveIsSound, DistinctWindow, LastIds;
    var next := Next(s, Receives(k)).value;
    assert SnapshotIsTrue(s, s.responses[k].reply);
    SameMessages(s, next);
    SameEarned(s, next);
  }

  lemma SendingKeepsInvariant(s: System, step: Step)
    requires Invariant(s) && Next(s, step).Some? && (step.SendsState? || step.SendsReceipt?)
    ensures Invariant(Next(s, step).value)
  {
    hide PendingIsSound, LiveIsSound, DistinctWindow, LastIds, Increasing;
    var next := Next(s, step).value;
    SameMessages(s, next);
    OutcomesStay(s, next);
    SendingEarns(s, step);
    hide ReceiptsAreEarned, OutcomesAreEarned;
  }

  /** A receipt says what the phone kept of the ended apply step. */
  lemma SendingEarns(s: System, step: Step)
    requires ReceiptsAreEarned(s) && PhoneIsCaughtUp(s) && Next(s, step).Some? && (step.SendsState? || step.SendsReceipt?)
    ensures ReceiptsAreEarned(Next(s, step).value)
  {
    hide EndedUnder;
    var next := Next(s, step).value;
    forall id, n, error | EndedUnder(s, id, n, error) ensures EndedUnder(next, id, n, error) {
      EarnedStays(s, next, id, n, n, error);
    }
  }

  /** Steps of the phone alone that neither send nor receive nor end an apply step. */
  lemma LocalKeepsInvariant(s: System, step: Step)
    requires Invariant(s) && Next(s, step).Some? && (step.GoesLive? || step.CycleFails? || step.Finishes?)
    ensures Invariant(Next(s, step).value)
  {
    hide PendingIsSound, LiveIsSound, DistinctWindow, LastIds;
    var next := Next(s, step).value;
    SameMessages(s, next);
    SameEarned(s, next);
    hide ReceiptsAreEarned, OutcomesAreEarned;
  }

  lemma {:induction false} RunsKeepInvariant(sessionId: text, now: Instant, steps: seq<Step>)
    requires Run(Begin(sessionId, now), steps).Some?
    ensures Invariant(Run(Begin(sessionId, now), steps).value)
  {
    if steps == [] {
      BeginIsSound(sessionId, now);
    } else {
      var before, last := steps[..|steps| - 1], steps[|steps| - 1];
      RunsKeepInvariant(sessionId, now, before);
      var s := Run(Begin(sessionId, now), before).value;
      hide Invariant, Begin;
      NextKeepsInvariant(s, last);
    }
  }

  lemma BeginIsSound(sessionId: text, now: Instant)
    ensures Invariant(Begin(sessionId, now))
  {
  }

  lemma NextKeepsInvariant(s: System, step: Step)
    requires Invariant(s) && Next(s, step).Some?
    ensures Invariant(Next(s, step).value)
  {
    hide Invariant, StateTaken, TakeReceipt, Served, Delivered;
    match step
    case Serves(event) => ServingKeepsInvariant(s, event);
    case Delivers(n, now) => DeliveryKeepsInvariant(s, n, now);
    case Receives(k) =>
      if s.phone.cycle.AwaitingState? {
        TakingStateKeepsInvariant(s, k);
      } else {
        TakingReceiptKeepsInvariant(s, k);
      }
    case SendsState(_, _) => SendingKeepsInvariant(s, step);
    case SendsReceipt(_, _) => SendingKeepsInvariant(s, step);
    case ApplyEnds(ending) => EndingKeepsInvariant(s, ending);
    case _ => LocalKeepsInvariant(s, step);
  }

  // --------------------------------------------------------------- theorems

  /**
   * Whatever is lost, delayed or repeated, the phone starts each accepted
   * command's apply step at most once, in order, and ends it before the next.
   */
  lemma AppliedAtMostOnce(sessionId: text, now: Instant, steps: seq<Step>)
    requires Run(Begin(sessionId, now), steps).Some?
    ensures var s := Run(Begin(sessionId, now), steps).value;
            && Increasing(s.applied)
            && (forall i :: 0 <= i < |s.applied| ==> s.applied[i] < |s.accepted|)
            && |s.ended| <= |s.applied| <= |s.ended| + 1
            && (forall i :: 0 <= i < |s.ended| ==> s.ended[i].position == s.applied[i])
  {
    RunsKeepInvariant(sessionId, now, steps);
  }

  /** The acknowledged outcome of a command is what the end of its own apply step is worth. */
  predicate IsGenuine(s: System, a: Acknowledgement)
  {
    && a.position < |s.accepted|
    && exists i :: 0 <= i < |s.ended| && s.ended[i].position == a.position
                   && Reports(a.outcome, s.accepted[a.position], ErrorOf(s.ended[i].ending))
  }

  /** It is instead what the end of an earlier command with the same id was worth, out of the server's memory. */
  predicate IsStale(s: System, a: Acknowledgement)
  {
    && a.position < |s.accepted|
    && exists i :: 0 <= i < |s.ended| && s.ended[i].position + RECENT_COMMAND_ID_LIMIT < a.position
                   && s.accepted[s.ended[i].position] == s.accepted[a.position]
                   && Reports(a.outcome, s.accepted[a.position], ErrorOf(s.ended[i].ending))
  }

  /**
   * An outcome recorded from an acknowledgement reports the ended apply step
   * of that command, or of one with the same id more than 256 acceptances earlier.
   */
  lemma AcknowledgedWereApplied(sessionId: text, now: Instant, steps: seq<Step>, k: nat)
    requires Run(Begin(sessionId, now), steps).Some?
    requires k < |Run(Begin(sessionId, now), steps).value.acknowledged|
    ensures var s := Run(Begin(sessionId, now), steps).value;
            IsGenuine(s, s.acknowledged[k]) || IsStale(s, s.acknowledged[k])
  {
    RunsKeepInvariant(sessionId, now, steps);
    hide Run;
    AcknowledgedIsEarned(Run(Begin(sessionId, now), steps).value, k);
  }

  lemma AcknowledgedIsEarned(s: System, k: nat)
    requires DistinctWindow(s.accepted) && OutcomesAreEarned(s) && k < |s.acknowledged|
    ensures IsGenuine(s, s.acknowledged[k]) || IsStale(s, s.acknowledged[k])
  {
    hide Reports;
    var a := s.acknowledged[k];
    assert IsEarned(s, a);
    var id := s.accepted[a.position];
    var error :| EndedUnder(s, id, a.position, error) && Reports(a.outcome, id, error);
    var i :| 0 <= i < |s.ended| && EndsUnder(s.accepted, s.ended[i], id, a.position, error);
    assert Reports(a.outcome, s.accepted[a.position], ErrorOf(s.ended[i].ending));
  }

  /** Every outcome recorded from an acknowledgement is genuine. */
  predicate Genuine(s: System)
  {
    forall k :: 0 <= k < |s.acknowledged| ==> IsGenuine(s, s.acknowledged[k])
  }

  /** However the messages fare, a run whose accepted commands are called `ids` records only genuine outcomes. */
  ghost predicate AlwaysGenuine(ids: seq<text>)
  {
    forall sessionId, now, steps :: Run(Begin(sessionId, now), steps).Some? && Run(Begin(sessionId, now), steps).value.accepted == ids ==>
      Genuine(Run(Begin(sessionId, now), steps).value)
  }

  predicate Distinct(ids: seq<text>)
  {
    forall i, j :: 0 <= i < j < |ids| ==> ids[i] != ids[j]
  }

  lemma NeverStale(s: System, a: Acknowledgement)
    requires Distinct(s.accepted)
    ensures !IsStale(s, a)
  {
  }

  /**
   * Without id reuse, an acknowledged command's apply step has ended, once; the
   * outcome is a rejection exactly when that step failed with an error to
   * tell, and then tells it. An aborted step counts as one without error.
   */
  lemma VerdictExactly(sessionId: text, now: Instant, steps: seq<Step>, k: nat)
    requires Run(Begin(sessionId, now), steps).Some?
    requires var s := Run(Begin(sessionId, now), steps).value; k < |s.acknowledged| && Distinct(s.accepted)
    ensures var s := Run(Begin(sessionId, now), steps).value;
            var a := s.acknowledged[k];
            && a.outcome.Some?
            && exists i :: 0 <= i < |s.ended| && s.ended[i].position == a.position
                           && (forall j :: 0 <= j < |s.ended| && s.ended[j].position == a.position ==> j == i)
                           && (a.outcome.value.verdict.Rejected? <==> s.ended[i].ending.Failed? && s.ended[i].ending.error != [])
                           && (a.outcome.value.verdict.Rejected? ==> a.outcome.value.message == Some(Told(s.ended[i].ending.error)))
  {
    AcknowledgedWereApplied(sessionId, now, steps, k);
    AppliedAtMostOnce(sessionId, now, steps);
    hide Run, Begin, IsStale;
    var s := Run(Begin(sessionId, now), steps).value;
    NeverStale(s, s.acknowledged[k]);
    var a := s.acknowledged[k];
    var i :| 0 <= i < |s.ended| && s.ended[i].position == a.position
             && Reports(a.outcome, s.accepted[a.position], ErrorOf(s.ended[i].ending));
    assert forall j :: 0 <= j < |s.ended| && s.ended[j].position == a.position ==> j == i;
  }

  // --------------------------------------------------- the next command

  /** The answer shows a command of this session that is to be applied. */
  predicate ShowsNext(s: System, reply: Reply)
  {
    && reply.Snapshot? && !reply.stopped && reply.pending.Some?
    && reply.pending.value.commandId != [] && reply.pending.value.sessionId == s.server.sessionId
    && reply.pending.value.controls.stop != Some(true)
  }

  /** The phone has no command taken on and is not busy with one, or it has ended. */
  predicate Free(s: System)
  {
    && !s.phone.phase.Connecting?
    && (s.phone.phase.Streaming? ==> s.phone.pendingId == [] && (s.phone.cycle.Idle? || s.phone.cycle.AwaitingState?))
  }

  /** No answer received while going through `steps` asks for anything. */
  predicate NothingShown(s: System, steps: seq<Step>)
  {
    forall i :: 0 <= i < |steps| && Run(s, steps[..i]).Some? ==> !HearsNext(Run(s, steps[..i]).value, steps[i])
  }

  predicate HearsNext(s: System, step: Step)
  {
    step.Receives? && step.response < |s.responses| && ShowsNext(s, s.responses[step.response].reply)
  }

  lemma StaysFree(s: System, step: Step)
    requires Free(s) && Next(s, step).Some? && !HearsNext(s, step)
    ensures Free(Next(s, step).value)
  {
    hide After, Beaten, BeatRefusal, Accepts;
  }

  lemma {:induction false} StaysFreeWhile(s: System, steps: seq<Step>)
    requires Free(s) && Run(s, steps).Some? && NothingShown(s, steps)
    ensures Free(Run(s, steps).value)
    decreases |steps|
  {
    if steps != [] {
      hide Next, Free, HearsNext;
      var front := steps[..|steps| - 1];
      assert NothingShown(s, front) by {
        assert forall i :: 0 <= i < |front| ==> front[..i] == steps[..i];
      }
      StaysFreeWhile(s, front);
      StaysFree(Run(s, front).value, steps[|steps| - 1]);
    }
  }

  /**
   * Once the phone hears that the server no longer waits for its
   * acknowledgement, it is free: whatever happens meanwhile, the next answer
   * it receives that shows a command to apply makes it start that very command.
   */
  lemma FreedPhoneTakesNext(sessionId: text, now: Instant, steps: seq<Step>, receipt: nat, meanwhile: seq<Step>, later: nat)
    requires Run(Begin(sessionId, now), steps).Some?
    requires var s := Run(Begin(sessionId, now), steps).value;
             && s.phone.phase.Streaming? && receipt < |s.responses| && s.phone.cycle == AwaitingReceipt(s.responses[receipt].request)
             && (var reply := s.responses[receipt].reply;
                 && reply.Snapshot? && !reply.stopped
                 && (reply.pending.Some? ==> reply.pending.value.commandId != s.phone.pendingId))
    requires var s := Run(Begin(sessionId, now), steps + [Receives(receipt)]);
             s.Some? && NothingShown(s.value, meanwhile) && Run(s.value, meanwhile).Some?
    requires var t := Run(Run(Begin(sessionId, now), steps + [Receives(receipt)]).value, meanwhile).value;
             && t.phone.phase.Streaming? && later < |t.responses|
             && t.phone.cycle == AwaitingState(t.responses[later].request) && ShowsNext(t, t.responses[later].reply)
    ensures var t := Run(Run(Begin(sessionId, now), steps + [Receives(receipt)]).value, meanwhile).value;
            && Next(t, Receives(later)).Some?
            && (var u, reply := Next(t, Receives(later)).value, t.responses[later].reply;
                && u.applied == t.applied + [reply.resolved]
                && u.phone.cycle.Applying? && u.phone.pendingId == reply.pending.value.commandId)
  {
    var s := Run(Begin(sessionId, now), steps).value;
    assert (steps + [Receives(receipt)])[..|steps|] == steps;
    ReceiptFrees(s, receipt);
    var freed := Run(Begin(sessionId, now), steps + [Receives(receipt)]).value;
    hide Next, Begin;
    StaysFreeWhile(freed, meanwhile);
    hide Run;
    FreeTakes(Run(freed, meanwhile).value, later);
  }

  lemma ReceiptFrees(s: System, receipt: nat)
    requires s.phone.phase.Streaming? && receipt < |s.responses| && s.phone.cycle == AwaitingReceipt(s.responses[receipt].request)
    requires var reply := s.responses[receipt].reply;
             reply.Snapshot? && !reply.stopped && (reply.pending.Some? ==> reply.pending.value.commandId != s.phone.pendingId)
    ensures Next(s, Receives(receipt)).Some? && Free(Next(s, Receives(receipt)).value)
  {
  }

  lemma FreeTakes(t: System, later: nat)
    requires Free(t) && t.phone.phase.Streaming? && later < |t.responses|
    requires t.phone.cycle == AwaitingState(t.responses[later].request) && ShowsNext(t, t.responses[later].reply)
    ensures Next(t, Receives(later)).Some?
    ensures var u, reply := Next(t, Receives(later)).value, t.responses[later].reply;
            && u.applied == t.applied + [reply.resolved]
            && u.phone.cycle.Applying? && u.phone.pendingId == reply.pending.value.commandId
  {
  }
}
