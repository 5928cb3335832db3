/** The daemon's camera session: one pending command, optimistic revisions, and phone heartbeats. */
module CameraSession {
  import opened Wrappers
  import opened Bytes
  import opened Camera

  /** A monotonic clock reading, in nanoseconds. */
  type Instant = nat

  const PHONE_HEARTBEAT_TIMEOUT: nat := 8_000_000_000
  const COMMAND_TIMEOUT: nat := 10_000_000_000
  const RECENT_COMMAND_ID_LIMIT: nat := 256

  datatype VideoFormat = VideoFormat(width: u16, height: u16, fps: byte)

  predicate FormatValid(format: VideoFormat)
  {
    && 320 <= format.width <= 4096 && 240 <= format.height <= 4096
    && format.width % 2 == 0 && format.height % 2 == 0
    && format.width * format.height <= MAX_PIXELS
    && 15 <= format.fps <= 60
  }

  predicate FormatMatches(format: VideoFormat, applied: Applied)
  {
    format.width == applied.width && format.height == applied.height && Distance(format.fps as real, applied.fps) <= 0.5
  }

  datatype Command = Command(sessionId: text, commandId: text, expectedRevision: u64, controls: Controls)

  datatype Heartbeat = Heartbeat(
    sessionId: text,
    capabilities: Option<Capabilities>,
    applied: Option<Applied>,
    commandId: Option<text>,
    error: Option<text>)

  datatype Status = Waiting | Live | Stopped

  datatype Message =
    | Told(words: text)
    | DeadlineMissed
    | HeartbeatExpired
    | StoppedFromDesktop
    | AppliedDifferently(width: u32, height: u32, fps: real)

  datatype Verdict = AppliedAsAsked | Adjusted | Rejected

  datatype CommandOutcome = CommandOutcome(commandId: text, verdict: Verdict, message: Option<Message>)

  datatype CommandError =
    | NotLive | StaleRevision | AlreadyPending | InvalidId | ReusedId
    | FormatChangeUnavailable
    | InvalidControls(fault: Fault)

  datatype HeartbeatError =
    | WrongSession | SessionNotLive | StaleAcknowledgement | MissingAppliedState
    | InvalidCapabilities(fault: Fault)
    | InvalidAppliedState(fault: Fault)

  datatype Session = Session(
    sessionId: text,
    revision: u64,
    status: Status,
    capabilities: Capabilities,
    applied: Option<Applied>,
    pending: Option<Command>,
    lastCommandId: Option<text>,
    lastOutcome: Option<CommandOutcome>,
    error: Option<Message>,
    heartbeatAt: Instant,
    cancelled: bool,
    pendingSince: Option<Instant>,
    outputFormat: Option<VideoFormat>,
    seenIds: seq<text>)

  function New(sessionId: text, now: Instant): Session
  {
    Session(sessionId, 0, Waiting, NoCapabilities, None, None, None, None, None, now, false, None, None, [])
  }

  // ---------------------------------------------------- what each call does

  function Activated(s: Session, caps: Capabilities, applied: Applied, format: VideoFormat, now: Instant): Session
  {
    s.(capabilities := caps, applied := Some(applied), outputFormat := Some(format), heartbeatAt := now,
       status := Live, error := None, revision := SaturatingAdd(s.revision, 1))
  }

  function StoppedBy(s: Session, reason: Message): Session
  {
    if s.status.Stopped? then s
    else s.(cancelled := true, pending := None, pendingSince := None, status := Stopped, error := Some(reason),
            revision := SaturatingAdd(s.revision, 1))
  }

  predicate Overdue(s: Session, now: Instant)
  {
    s.pending.Some? && s.pendingSince.Some? && SaturatingSub(now, s.pendingSince.value) >= COMMAND_TIMEOUT
  }

  /** The pending command is over, with `outcome`. */
  function Settled(s: Session, outcome: CommandOutcome): Session
  {
    s.(pending := None, pendingSince := None, lastCommandId := Some(outcome.commandId), lastOutcome := Some(outcome),
       error := outcome.message)
  }

  function Expired(s: Session, now: Instant): Session
  {
    if !Overdue(s, now) then s
    else
      var outcome := CommandOutcome(s.pending.value.commandId, Rejected, Some(DeadlineMissed));
      Settled(s, outcome).(revision := SaturatingAdd(s.revision, 1))
  }

  predicate Silent(s: Session, now: Instant)
  {
    s.status.Live? && SaturatingSub(now, s.heartbeatAt) > PHONE_HEARTBEAT_TIMEOUT
  }

  predicate IdByte(b: byte)
  {
    48 <= b <= 57 || 65 <= b <= 90 || 97 <= b <= 122 || b == 45 || b == 95
  }

  predicate IdValid(id: text)
  {
    0 < |id| <= 128 && forall i :: 0 <= i < |id| ==> IdByte(id[i])
  }

  predicate ChangesFormat(fixed: VideoFormat, controls: Controls)
  {
    || (controls.width.Some? && controls.width.value != fixed.width)
    || (controls.height.Some? && controls.height.value != fixed.height)
    || (controls.fps.Some? && Distance(controls.fps.value, fixed.fps as real) > 0.5)
  }

  predicate AsksToStop(s: Session, command: Command)
  {
    command.sessionId == s.sessionId && command.controls.stop == Some(true)
  }

  function CommandRefusal(s: Session, command: Command): Option<CommandError>
  {
    if command.sessionId != s.sessionId then Some(StaleRevision)
    else if command.controls.stop == Some(true) then None
    else if !s.status.Live? then Some(NotLive)
    else if command.expectedRevision != s.revision then Some(StaleRevision)
    else if s.pending.Some? then Some(AlreadyPending)
    else if !IdValid(command.commandId) then Some(InvalidId)
    else if command.commandId in s.seenIds then Some(ReusedId)
    else if s.outputFormat.Some? && ChangesFormat(s.outputFormat.value, command.controls) then Some(FormatChangeUnavailable)
    else if ControlsFault(command.controls, s.capabilities).Some? then
      Some(InvalidControls(ControlsFault(command.controls, s.capabilities).value))
    else None
  }

  /** The command becomes the pending one. */
  predicate Accepts(s: Session, command: Command)
  {
    CommandRefusal(s, command).None? && !AsksToStop(s, command)
  }

  function Remembered(ids: seq<text>, id: text): seq<text>
  {
    var all := ids + [id];
    if |all| > RECENT_COMMAND_ID_LIMIT then all[1..] else all
  }

  function Admitted(s: Session, command: Command, now: Instant): Session
  {
    s.(pending := Some(command), pendingSince := Some(now), seenIds := Remembered(s.seenIds, command.commandId),
       lastOutcome := None, error := None)
  }

  function Enqueued(s: Session, command: Command, now: Instant): Session
  {
    if AsksToStop(s, command) then StoppedBy(s, StoppedFromDesktop)
    else if CommandRefusal(s, command).Some? then s
    else Admitted(s, command, now)
  }

  /** Why a heartbeat is refused in a live session whose deadline has been looked at. */
  function HeartbeatRefusal(s: Session, update: Heartbeat): Option<HeartbeatError>
  {
    var caps := update.capabilities.GetOr(s.capabilities);
    if CapabilitiesFault(caps).Some? then Some(InvalidCapabilities(CapabilitiesFault(caps).value))
    else if update.commandId.Some? && !(s.pending.Some? && s.pending.value.commandId == update.commandId.value) then
      Some(StaleAcknowledgement)
    else if update.applied.Some? && AppliedFault(update.applied.value, caps).Some? then
      Some(InvalidAppliedState(AppliedFault(update.applied.value, caps).value))
    else if update.applied.None? && update.commandId.Some? then Some(MissingAppliedState)
    else None
  }

  function OutcomeOf(command: Command, applied: Applied, error: Option<text>): CommandOutcome
  {
    if error.Some? && error.value != [] then CommandOutcome(command.commandId, Rejected, Some(Told(error.value)))
    else if ReflectedBy(command.controls, applied) then CommandOutcome(command.commandId, AppliedAsAsked, None)
    else CommandOutcome(command.commandId, Adjusted, Some(AppliedDifferently(applied.width, applied.height, applied.fps)))
  }

  function Merged(s: Session, update: Heartbeat, now: Instant): Session
    requires HeartbeatRefusal(s, update).None?
  {
    var caps := update.capabilities.GetOr(s.capabilities);
    var applied := if update.applied.Some? then update.applied else s.applied;
    var changed := caps != s.capabilities || applied != s.applied || update.commandId.Some?;
    var next := s.(capabilities := caps, applied := applied, heartbeatAt := now,
                   revision := if changed then SaturatingAdd(s.revision, 1) else s.revision);
    if update.commandId.Some? then
      Settled(next, OutcomeOf(s.pending.value, update.applied.value, update.error))
    else if update.error.Some? then next.(error := Some(Told(update.error.value)))
    else next
  }

  function BeatRefusal(s: Session, update: Heartbeat, now: Instant): Option<HeartbeatError>
  {
    if update.sessionId != s.sessionId then Some(WrongSession)
    else if !s.status.Live? then Some(SessionNotLive)
    else HeartbeatRefusal(Expired(s, now), update)
  }

  function Beaten(s: Session, update: Heartbeat, now: Instant): Session
  {
    if update.sessionId != s.sessionId || !s.status.Live? then s
    else if HeartbeatRefusal(Expired(s, now), update).Some? then Expired(s, now)
    else Merged(Expired(s, now), update, now)
  }

  class CameraSession {
    const sessionId: text
    var revision: u64
    var status: Status
    var capabilities: Capabilities
    var applied: Option<Applied>
    var pending: Option<Command>
    var lastCommandId: Option<text>
    var lastOutcome: Option<CommandOutcome>
    var error: Option<Message>
    var heartbeatAt: Instant
    var cancelled: bool
    var pendingSince: Option<Instant>
    var outputFormat: Option<VideoFormat>
    var seenIds: seq<text>

    function State(): Session
      reads this
    {
      Session(sessionId, revision, status, capabilities, applied, pending, lastCommandId, lastOutcome, error,
              heartbeatAt, cancelled, pendingSince, outputFormat, seenIds)
    }

    constructor (sessionId: text, now: Instant)
      ensures State() == New(sessionId, now)
    {
      this.sessionId := sessionId;
      revision, status, capabilities, applied, pending := 0, Waiting, NoCapabilities, None, None;
      lastCommandId, lastOutcome, error, heartbeatAt, cancelled := None, None, None, now, false;
      pendingSince, outputFormat, seenIds := None, None, [];
    }

    method Activate(caps: Capabilities, state: Applied, format: VideoFormat, now: Instant)
      modifies this
      ensures State() == Activated(old(State()), caps, state, format, now)
    {
      capabilities := caps;
      applied := Some(state);
      outputFormat := Some(format);
      heartbeatAt := now;
      status := Live;
      error := None;
      revision := SaturatingAdd(revision, 1);
    }

    method Stop(reason: Message)
      modifies this
      ensures State() == StoppedBy(old(State()), reason)
    {
      if status.Stopped? {
        return;
      }
      cancelled := true;
      pending := None;
      pendingSince := None;
      status := Stopped;
      error := Some(reason);
      revision := SaturatingAdd(revision, 1);
    }

    method ExpireHeartbeat(now: Instant) returns (stopped: bool)
      modifies this
      ensures stopped == Silent(old(State()), now)
      ensures State() == if stopped then StoppedBy(old(State()), HeartbeatExpired) else old(State())
    {
      if status.Live? && SaturatingSub(now, heartbeatAt) > PHONE_HEARTBEAT_TIMEOUT {
        Stop(HeartbeatExpired);
        return true;
      }
      stopped := false;
    }

    method Enqueue(command: Command, now: Instant) returns (r: Outcome<CommandError>)
      modifies this
      ensures State() == Enqueued(old(State()), command, now)
      ensures CommandRefusal(old(State()), command) == if r.Pass? then None else Some(r.error)
    {
      hide ControlsFault, ChangesFormat, IdValid;
      if command.sessionId != sessionId {
        return Fail(StaleRevision);
      }
      if command.controls.stop == Some(true) {
        Stop(StoppedFromDesktop);
        return Pass;
      }
      if !status.Live? {
        return Fail(NotLive);
      }
      if command.expectedRevision != revision {
        return Fail(StaleRevision);
      }
      if pending.Some? {
        return Fail(AlreadyPending);
      }
      if !IdValid(command.commandId) {
        return Fail(InvalidId);
      }
      if command.commandId in seenIds {
        return Fail(ReusedId);
      }
      if outputFormat.Some? && ChangesFormat(outputFormat.value, command.controls) {
        return Fail(FormatChangeUnavailable);
      }
      var fault := ControlsFault(command.controls, capabilities);
      if fault.Some? {
        return Fail(InvalidControls(fault.value));
      }
      Admit(command, now);
      r := Pass;
    }

    method Admit(command: Command, now: Instant)
      modifies this
      ensures State() == Admitted(old(State()), command, now)
    {
      pending, pendingSince := Some(command), Some(now);
      seenIds := seenIds + [command.commandId];
      if |seenIds| > RECENT_COMMAND_ID_LIMIT {
        seenIds := seenIds[1..];
      }
      lastOutcome, error := None, None;
    }

    method Settle(outcome: CommandOutcome)
      modifies this
      ensures State() == Settled(old(State()), outcome)
    {
      pending, pendingSince := None, None;
      lastCommandId, lastOutcome, error := Some(outcome.commandId), Some(outcome), outcome.message;
    }

    method ExpirePending(now: Instant) returns (expired: bool)
      modifies this
      ensures expired == Overdue(old(State()), now)
      ensures State() == Expired(old(State()), now)
    {
      if pending.Some? && pendingSince.Some? && SaturatingSub(now, pendingSince.value) >= COMMAND_TIMEOUT {
        Settle(CommandOutcome(pending.value.commandId, Rejected, Some(DeadlineMissed)));
        revision := SaturatingAdd(revision, 1);
        return true;
      }
      expired := false;
    }

    /** The checks of a heartbeat, in order, on a live session. */
    method CheckHeartbeat(update: Heartbeat) returns (refusal: Option<HeartbeatError>)
      ensures refusal == HeartbeatRefusal(State(), update)
    {
      hide CapabilitiesFault, AppliedFault;
      var caps := update.capabilities.GetOr(capabilities);
      var fault := CapabilitiesFault(caps);
      if fault.Some? {
        return Some(InvalidCapabilities(fault.value));
      }
      if update.commandId.Some? {
        if pending.None? || pending.value.commandId != update.commandId.value {
          return Some(StaleAcknowledgement);
        }
      }
      if update.applied.Some? {
        fault := AppliedFault(update.applied.value, caps);
        if fault.Some? {
          return Some(InvalidAppliedState(fault.value));
        }
      } else if update.commandId.Some? {
        return Some(MissingAppliedState);
      }
      refusal := None;
    }

    /** The changes of a heartbeat that passed its checks. */
    method Merge(update: Heartbeat, now: Instant)
      requires HeartbeatRefusal(State(), update).None?
      modifies this
      ensures State() == Merged(old(State()), update, now)
    {
      hide CapabilitiesFault, AppliedFault, OutcomeOf;
      var caps := update.capabilities.GetOr(capabilities);
      var acknowledged := if update.commandId.Some? then pending else None;
      var shown := if update.applied.Some? then update.applied else applied;
      var changed := capabilities != caps || applied != shown || acknowledged.Some?;
      capabilities, applied, heartbeatAt := caps, shown, now;
      revision := if changed then SaturatingAdd(revision, 1) else revision;
      if acknowledged.Some? {
        Settle(OutcomeOf(acknowledged.value, update.applied.value, update.error));
      } else if update.error.Some? {
        error := Some(Told(update.error.value));
      }
    }

    /** A refused heartbeat leaves nothing behind but the deadline it noticed. */
    method AcceptHeartbeat(update: Heartbeat, now: Instant) returns (r: Outcome<HeartbeatError>)
      modifies this
      ensures State() == Beaten(old(State()), update, now)
      ensures BeatRefusal(old(State()), update, now) == if r.Pass? then None else Some(r.error)
      ensures r.Fail? ==>
        State() == if r.error.WrongSession? || r.error.SessionNotLive? then old(State()) else Expired(old(State()), now)
    {
      if update.sessionId != sessionId {
        return Fail(WrongSession);
      }
      if !status.Live? {
        return Fail(SessionNotLive);
      }
      hide Merged, Expired;
      var _ := ExpirePending(now);
      var refusal := CheckHeartbeat(update);
      NeverWrongSession(State(), update);
      hide HeartbeatRefusal;
      if refusal.Some? {
        return Fail(refusal.value);
      }
      Merge(update, now);
      r := Pass;
    }
  }

  /** The checks on a live session report neither another session nor an ended one. */
  lemma NeverWrongSession(s: Session, update: Heartbeat)
    ensures HeartbeatRefusal(s, update) != Some(WrongSession) && HeartbeatRefusal(s, update) != Some(SessionNotLive)
  {
    hide CapabilitiesFault, AppliedFault;
  }

  // ------------------------------------------------------------------- runs

  datatype Event =
    | Offer(caps: Capabilities, applied: Applied, format: VideoFormat, offeredAt: Instant)
    | Stop(reason: Message)
    | Enqueue(command: Command, enqueuedAt: Instant)
    | ExpirePending(checkedAt: Instant)
    | ExpireHeartbeat(listenedAt: Instant)
    | Beat(update: Heartbeat, beatAt: Instant)

  /** An offer activates a session only while it waits, and only with a report that validates. */
  predicate OfferAccepted(s: Session, event: Event)
    requires event.Offer?
  {
    && s.status.Waiting?
    && FormatValid(event.format)
    && CapabilitiesFault(event.caps).None? && AppliedFault(event.applied, event.caps).None?
    && FormatMatches(event.format, event.applied)
  }

  function After(s: Session, event: Event): Session
  {
    match event
    case Offer(caps, applied, format, now) => if OfferAccepted(s, event) then Activated(s, caps, applied, format, now) else s
    case Stop(reason) => StoppedBy(s, reason)
    case Enqueue(command, now) => Enqueued(s, command, now)
    case ExpirePending(now) => Expired(s, now)
    case ExpireHeartbeat(now) => if Silent(s, now) then StoppedBy(s, HeartbeatExpired) else s
    case Beat(update, now) => Beaten(s, update, now)
  }

  function Run(begin: Session, events: seq<Event>): Session
    decreases |events|
  {
    if events == [] then begin else After(Run(begin, events[..|events| - 1]), events[|events| - 1])
  }

  predicate Fresh(s: Session)
  {
    s == New(s.sessionId, s.heartbeatAt)
  }

  lemma RunNext(begin: Session, events: seq<Event>, i: nat)
    requires i < |events|
    ensures Run(begin, events[..i + 1]) == After(Run(begin, events[..i]), events[i])
  {
    assert events[..i + 1][..i] == events[..i];
  }

  predicate PendingIsSound(s: Session)
  {
    && (s.pendingSince.Some? <==> s.pending.Some?)
    && (s.pending.Some? ==> s.status.Live? && s.lastOutcome.None? && s.pending.value.sessionId == s.sessionId
                            && s.pending.value.controls.stop != Some(true) && IdValid(s.pending.value.commandId))
  }

  predicate LiveIsSound(s: Session)
  {
    && (s.status.Live? ==> s.applied.Some? && CapabilitiesFault(s.capabilities).None?)
    && (s.status.Live? ==> s.outputFormat.Some? && FormatValid(s.outputFormat.value))
    && (s.status.Waiting? ==> s.lastOutcome.None?)
    && (s.cancelled <==> s.status.Stopped?)
  }

  lemma StepKeepsPending(s: Session, event: Event)
    requires PendingIsSound(s) && LiveIsSound(s)
    ensures PendingIsSound(After(s, event))
  {
    hide CapabilitiesFault, AppliedFault, ControlsFault, ReflectedBy, ChangesFormat;
  }

  lemma StepKeepsLive(s: Session, event: Event)
    requires PendingIsSound(s) && LiveIsSound(s)
    ensures LiveIsSound(After(s, event))
  {
    hide CapabilitiesFault, AppliedFault, CommandRefusal, ReflectedBy, Beaten;
    if event.Beat? {
      BeatKeepsLive(s, event.update, event.beatAt);
    }
  }

  lemma BeatKeepsLive(s: Session, update: Heartbeat, now: Instant)
    requires LiveIsSound(s)
    ensures LiveIsSound(Beaten(s, update, now))
  {
    hide CapabilitiesFault, AppliedFault, OutcomeOf, FormatValid, Overdue, SaturatingAdd;
  }

  /** A pending command means a live session and a start time; a live session has settings, capabilities and a fixed format. */
  lemma {:induction false} EveryStateIsSound(begin: Session, events: seq<Event>)
    requires Fresh(begin)
    ensures PendingIsSound(Run(begin, events)) && LiveIsSound(Run(begin, events))
  {
    if events != [] {
      var s := Run(begin, events[..|events| - 1]);
      hide After, PendingIsSound, LiveIsSound;
      EveryStateIsSound(begin, events[..|events| - 1]);
      StepKeepsPending(s, events[|events| - 1]);
      StepKeepsLive(s, events[|events| - 1]);
    }
  }

  // -------------------------------------------------------------- revisions

  /** What the desktop sees of the camera. */
  datatype CameraView = CameraView(status: Status, capabilities: Capabilities, applied: Option<Applied>)

  function View(s: Session): CameraView
  {
    CameraView(s.status, s.capabilities, s.applied)
  }

  /** A step that changes the camera's state takes the next revision, exactly while there is one. */
  lemma StepCountsRevisions(s: Session, event: Event)
    ensures After(s, event).revision >= s.revision
    ensures View(After(s, event)) != View(s) ==> (After(s, event).revision == s.revision <==> s.revision == U64_MAX)
  {
    hide CapabilitiesFault, AppliedFault, ControlsFault, ReflectedBy, ChangesFormat, Beaten;
    if event.Beat? {
      BeatCountsRevisions(s, event.update, event.beatAt);
    }
  }

  lemma BeatCountsRevisions(s: Session, update: Heartbeat, now: Instant)
    ensures var next := Beaten(s, update, now);
            && next.revision >= s.revision
            && (View(next) != View(s) ==> (next.revision == s.revision <==> s.revision == U64_MAX))
  {
    hide HeartbeatRefusal, OutcomeOf;
    var expired := Expired(s, now);
    assert expired.revision >= s.revision && View(expired) == View(s);
  }

  /** `later` has at least the revision of `earlier`, and the same view if it has the same revision below saturation. */
  predicate Tells(earlier: Session, later: Session)
  {
    && earlier.revision <= later.revision
    && (earlier.revision == later.revision < U64_MAX ==> View(earlier) == View(later))
  }

  lemma TellsAfter(earlier: Session, s: Session, event: Event)
    requires Tells(earlier, s)
    ensures Tells(earlier, After(s, event))
  {
    hide After, View;
    StepCountsRevisions(s, event);
  }

  lemma TellsItself(s: Session)
    ensures Tells(s, s)
  {
  }

  /** Below saturation, a revision number determines status, capabilities and applied settings. */
  lemma {:induction false} RevisionTellsView(begin: Session, events: seq<Event>, i: nat, j: nat)
    requires i <= j <= |events|
    ensures Tells(Run(begin, events[..i]), Run(begin, events[..j]))
    decreases j
  {
    hide *;
    if i == j {
      TellsItself(Run(begin, events[..i]));
    } else {
      RevisionTellsView(begin, events, i, j - 1);
      RunNext(begin, events, j - 1);
      TellsAfter(Run(begin, events[..i]), Run(begin, events[..j - 1]), events[j - 1]);
    }
  }

  /**
   * A command accepted at event j was checked against the very camera state
   * the desktop read after i events, when it read `expectedRevision`.
   */
  lemma AcceptedAgainstWhatWasRead(begin: Session, events: seq<Event>, i: nat, j: nat)
    requires Fresh(begin) && i <= j < |events| && events[j].Enqueue?
    requires Accepts(Run(begin, events[..j]), events[j].command)
    requires Run(begin, events[..i]).revision == events[j].command.expectedRevision < U64_MAX
    ensures var read := Run(begin, events[..i]);
            && View(read) == View(Run(begin, events[..j]))
            && read.status.Live?
            && ControlsFault(events[j].command.controls, read.capabilities).None?
            && read.outputFormat.Some? && !ChangesFormat(read.outputFormat.value, events[j].command.controls)
            && (Honourable(events[j].command.controls, read.capabilities) <==> read.capabilities.cameras != [])
  {
    hide Run, ControlsFault, Honourable;
    RevisionTellsView(begin, events, i, j);
    EveryStateIsSound(begin, events[..i]);
    EveryStateIsSound(begin, events[..j]);
    FormatStays(begin, events, i, j);
    ValidRequestsAreHonourable(events[j].command.controls, Run(begin, events[..i]).capabilities);
  }

  /** Once a session has left waiting, its output format is fixed. */
  predicate KeepsFormat(earlier: Session, later: Session)
  {
    !earlier.status.Waiting? ==> !later.status.Waiting? && later.outputFormat == earlier.outputFormat
  }

  lemma KeepsFormatAfter(earlier: Session, s: Session, event: Event)
    requires KeepsFormat(earlier, s)
    ensures KeepsFormat(earlier, After(s, event))
  {
    hide CapabilitiesFault, AppliedFault, ControlsFault, ReflectedBy, ChangesFormat;
  }

  lemma KeepsOwnFormat(s: Session)
    ensures KeepsFormat(s, s)
  {
  }

  lemma {:induction false} FormatStays(begin: Session, events: seq<Event>, i: nat, j: nat)
    requires i <= j <= |events|
    ensures KeepsFormat(Run(begin, events[..i]), Run(begin, events[..j]))
    decreases j
  {
    hide *;
    if i == j {
      KeepsOwnFormat(Run(begin, events[..i]));
    } else {
      FormatStays(begin, events, i, j - 1);
      RunNext(begin, events, j - 1);
      KeepsFormatAfter(Run(begin, events[..i]), Run(begin, events[..j - 1]), events[j - 1]);
    }
  }

  /** A phone with one camera and a torch, and its settings with the torch on or off. */
  const OneCamera := Capabilities([CameraDescription([1], [], [], [], [])], None, None, true, [], true)
  const OneFormat := VideoFormat(640, 480, 30)

  function Shown(torch: bool): Applied
  {
    Applied([1], 640, 480, 30.0, None, None, torch, false, false)
  }

  lemma OneCameraValidates(torch: bool)
    ensures CapabilitiesFault(OneCamera).None? && AppliedFault(Shown(torch), OneCamera).None?
    ensures FormatValid(OneFormat) && FormatMatches(OneFormat, Shown(torch))
    ensures ControlsFault(NoControls, OneCamera).None? && ReflectedBy(NoControls, Shown(torch))
  {
    FaultlessExactly(OneCamera);
    assert KnownCamera(OneCamera, OneCamera.cameras[0].id);
  }

  function Toggle(torch: bool): Event
  {
    Beat(Heartbeat([], None, Some(Shown(torch)), None, None), 0)
  }

  /** The torch after `n` toggles. */
  function Torch(n: nat): bool
  {
    n > 0 && !Torch(n - 1)
  }

  /** The revision after `n` toggles. */
  function Counted(n: nat): u64
  {
    if n == 0 then 1 else SaturatingAdd(Counted(n - 1), 1)
  }

  lemma {:induction false} CountSaturates(n: nat)
    ensures Counted(n) == if n < U64_MAX then n + 1 else U64_MAX
  {
    if n > 0 {
      CountSaturates(n - 1);
      assert Counted(n) == SaturatingAdd(Counted(n - 1), 1);
      hide Counted;
    }
  }

  /** A session that goes live, then `n` heartbeats that switch the torch on and off. */
  function Flicker(n: nat): (r: seq<Event>)
    ensures |r| == n + 1
  {
    if n == 0 then [Offer(OneCamera, Shown(false), OneFormat, 0)] else Flicker(n - 1) + [Toggle(Torch(n))]
  }

  predicate Flickers(s: Session, torch: bool)
  {
    && s.sessionId == [] && s.status.Live? && s.pending.None?
    && s.capabilities == OneCamera && s.applied == Some(Shown(torch))
  }

  lemma ToggleCounts(s: Session, torch: bool)
    requires Flickers(s, !torch)
    ensures Flickers(After(s, Toggle(torch)), torch)
    ensures After(s, Toggle(torch)).revision == SaturatingAdd(s.revision, 1)
  {
    hide CapabilitiesFault, AppliedFault;
    OneCameraValidates(torch);
  }

  function Flickered(n: nat): Session
  {
    Run(New([], 0), Flicker(n))
  }

  lemma OneMoreToggle(n: nat)
    requires n > 0
    ensures Flickered(n) == After(Flickered(n - 1), Toggle(Torch(n)))
    ensures Torch(n) == !Torch(n - 1) && Counted(n) == SaturatingAdd(Counted(n - 1), 1)
  {
    hide After, Toggle;
    assert Flicker(n)[..n] == Flicker(n - 1);
  }

  lemma {:induction false} AfterFlicker(n: nat)
    ensures Flickers(Flickered(n), Torch(n)) && Flickered(n).revision == Counted(n)
  {
    if n > 0 {
      hide *;
      AfterFlicker(n - 1);
      OneMoreToggle(n);
      ToggleCounts(Flickered(n - 1), Torch(n));
    } else {
      AfterFirstOffer();
    }
  }

  lemma AfterFirstOffer()
    ensures Flickers(Flickered(0), false) && Flickered(0).revision == 1
  {
    hide CapabilitiesFault, AppliedFault, FormatMatches, FormatValid;
    OneCameraValidates(false);
    assert Flicker(0)[..0] == [];
  }

  /** At saturation a revision number no longer tells: two states of one run share the last one and differ. */
  lemma LastRevisionIsShared()
    ensures var events := Flicker(U64_MAX);
            var s, later := Run(New([], 0), events[..U64_MAX]), Run(New([], 0), events);
            s.revision == later.revision == U64_MAX && View(s) != View(later)
  {
    hide Run, Torch, Counted;
    AfterFlicker(U64_MAX - 1);
    AfterFlicker(U64_MAX);
    CountSaturates(U64_MAX - 1);
    CountSaturates(U64_MAX);
    OneMoreToggle(U64_MAX);
    assert Flicker(U64_MAX)[..U64_MAX] == Flicker(U64_MAX - 1);
  }

  // ---------------------------------------------------------------- history

  datatype Resolution =
    | TimedOut(noticedAt: Instant)
    | Acknowledged(heardAt: Instant, outcome: CommandOutcome, shown: Applied)
    | Abandoned

  datatype Entry =
    | Accepted(command: Command, at: Instant)
    | Resolved(command: Command, how: Resolution)

  function EndOfPending(s: Session, event: Event): Resolution
  {
    match event
    case ExpirePending(now) => TimedOut(now)
    case Beat(update, now) =>
      if s.pending.None? || Overdue(s, now) || update.applied.None? then TimedOut(now)
      else Acknowledged(now, OutcomeOf(s.pending.value, update.applied.value, update.error), update.applied.value)
    case _ => Abandoned
  }

  /** What one event adds to the history of commands. */
  function Entries(s: Session, event: Event): seq<Entry>
  {
    if event.Enqueue? && Accepts(s, event.command) then [Accepted(event.command, event.enqueuedAt)]
    else if s.pending.Some? && After(s, event).pending != s.pending then [Resolved(s.pending.value, EndOfPending(s, event))]
    else []
  }

  function History(begin: Session, events: seq<Event>): seq<Entry>
    decreases |events|
  {
    if events == [] then []
    else
      var front, last := events[..|events| - 1], events[|events| - 1];
      History(begin, front) + Entries(Run(begin, front), last)
  }

  /** `end` resolves the command accepted by `start`, for a reason that holds of the two. */
  predicate Resolves(start: Entry, end: Entry)
  {
    && start.Accepted? && end.Resolved? && start.command == end.command
    && match end.how
       case TimedOut(now) => SaturatingSub(now, start.at) >= COMMAND_TIMEOUT
       case Acknowledged(now, outcome, shown) =>
         && SaturatingSub(now, start.at) < COMMAND_TIMEOUT
         && outcome.commandId == start.command.commandId
         && (outcome.verdict.AppliedAsAsked? ==> ReflectedBy(start.command.controls, shown))
         && (outcome.verdict.Adjusted? ==> !ReflectedBy(start.command.controls, shown))
       case Abandoned => true
  }

  /** Commands are accepted one at a time, each resolved once before the next. */
  predicate Alternates(history: seq<Entry>)
  {
    && (forall k :: 0 <= k < |history| && k % 2 == 0 ==> history[k].Accepted?)
    && (forall k :: 0 < k < |history| && k % 2 == 1 ==> Resolves(history[k - 1], history[k]))
  }

  /** Nothing follows a command given up because the session stopped. */
  predicate AbandonedLast(history: seq<Entry>)
  {
    forall k :: 0 <= k < |history| - 1 && history[k].Resolved? ==> !history[k].how.Abandoned?
  }

  /** The outcome the session shows is that of the last command, once there is one. */
  predicate ShowsOutcome(s: Session, history: seq<Entry>)
  {
    if history == [] || history[|history| - 1].Accepted? then s.lastOutcome.None?
    else
      var end := history[|history| - 1];
      match end.how
      case TimedOut(_) => s.lastOutcome == Some(CommandOutcome(end.command.commandId, Rejected, Some(DeadlineMissed)))
      case Acknowledged(_, outcome, _) => s.lastOutcome == Some(outcome)
      case Abandoned => s.lastOutcome.None? && s.status.Stopped?
  }

  /** The history is odd exactly while a command is pending, and then ends with its acceptance. */
  predicate PendingIsLast(s: Session, history: seq<Entry>)
  {
    && (|history| % 2 == 1 <==> s.pending.Some?)
    && (s.pending.Some? ==> s.pendingSince.Some? && history[|history| - 1] == Accepted(s.pending.value, s.pendingSince.value))
  }

  /** What one event may do to the pending command, in terms of the entries it adds. */
  predicate Advances(s: Session, next: Session, added: seq<Entry>)
  {
    || (added == [] && next.pending == s.pending && next.pendingSince == s.pendingSince && next.lastOutcome == s.lastOutcome
        && (s.status.Stopped? ==> next.status.Stopped?))
    || (s.pending.None? && !s.status.Stopped? && next.pending.Some? && next.pendingSince.Some? && next.lastOutcome.None?
        && added == [Accepted(next.pending.value, next.pendingSince.value)])
    || (s.pending.Some? && s.pendingSince.Some? && next.pending.None? && |added| == 1
        && Resolves(Accepted(s.pending.value, s.pendingSince.value), added[0])
        && ShowsOutcome(next, added))
  }

  lemma StepAdvances(s: Session, event: Event)
    requires PendingIsSound(s) && LiveIsSound(s)
    ensures Advances(s, After(s, event), Entries(s, event))
  {
    hide CapabilitiesFault, AppliedFault, ControlsFault, ReflectedBy, ChangesFormat, Merged, HeartbeatRefusal, IdValid;
    if event.Beat? {
      BeatAdvances(s, event.update, event.beatAt);
    }
  }

  lemma BeatAdvances(s: Session, update: Heartbeat, now: Instant)
    requires PendingIsSound(s)
    ensures Advances(s, Beaten(s, update, now), Entries(s, Beat(update, now)))
  {
    hide CapabilitiesFault, AppliedFault, ControlsFault, ReflectedBy, ChangesFormat, IdValid, FormatMatches, FormatValid;
  }

  /**
   * Every command that becomes pending is resolved exactly once: by an
   * acknowledgement heard before its deadline, by a deadline, or by the end of the session.
   */
  lemma {:induction false} EveryCommandResolvedOnce(begin: Session, events: seq<Event>)
    requires Fresh(begin)
    ensures var s, history := Run(begin, events), History(begin, events);
            Alternates(history) && PendingIsLast(s, history) && ShowsOutcome(s, history) && AbandonedLast(history)
  {
    if events != [] {
      var front, last := events[..|events| - 1], events[|events| - 1];
      var s := Run(begin, front);
      hide After, Entries, Advances, PendingIsSound, LiveIsSound;
      EveryCommandResolvedOnce(begin, front);
      EveryStateIsSound(begin, front);
      StepAdvances(s, last);
      HistoryGrows(History(begin, front), Entries(s, last), s, After(s, last));
    }
  }

  lemma HistoryGrows(history: seq<Entry>, added: seq<Entry>, s: Session, next: Session)
    requires Alternates(history) && PendingIsLast(s, history) && ShowsOutcome(s, history) && AbandonedLast(history)
    requires Advances(s, next, added)
    ensures var all := history + added;
            Alternates(all) && PendingIsLast(next, all) && ShowsOutcome(next, all) && AbandonedLast(all)
  {
    hide Resolves;
  }

  // -------------------------------------------------------------------- ids

  /** The ids of the accepted commands, in order. */
  function AcceptedIds(begin: Session, events: seq<Event>): seq<text>
    decreases |events|
  {
    if events == [] then []
    else
      var front, last := events[..|events| - 1], events[|events| - 1];
      var ids := AcceptedIds(begin, front);
      if last.Enqueue? && Accepts(Run(begin, front), last.command) then ids + [last.command.commandId] else ids
  }

  /** Ids at most `RECENT_COMMAND_ID_LIMIT` acceptances apart differ. */
  predicate DistinctWindow(ids: seq<text>)
  {
    forall i, j :: 0 <= i < j < |ids| && j - i <= RECENT_COMMAND_ID_LIMIT ==> ids[i] != ids[j]
  }

  function LastIds(ids: seq<text>): seq<text>
  {
    if |ids| <= RECENT_COMMAND_ID_LIMIT then ids else ids[|ids| - RECENT_COMMAND_ID_LIMIT..]
  }

  /** An event leaves the pending command, drops it, or makes its own command the pending one. */
  lemma StepMovesPending(s: Session, event: Event)
    ensures if event.Enqueue? && Accepts(s, event.command)
            then s.pending.None? && After(s, event).pending == Some(event.command)
            else After(s, event).pending == s.pending || After(s, event).pending.None?
  {
    hide CapabilitiesFault, AppliedFault, ControlsFault, ReflectedBy, ChangesFormat;
  }

  /** An acknowledgement is taken only for the pending command, which is then over with the outcome it reports. */
  lemma ReceiptSettlesPending(s: Session, update: Heartbeat, now: Instant)
    requires update.commandId.Some? && BeatRefusal(s, update, now).None?
    ensures s.pending.Some? && s.pending.value.commandId == update.commandId.value && update.applied.Some?
    ensures Beaten(s, update, now).pending.None?
    ensures Beaten(s, update, now).lastOutcome == Some(OutcomeOf(s.pending.value, update.applied.value, update.error))
  {
    hide CapabilitiesFault, AppliedFault, OutcomeOf;
  }

  lemma StepRemembersIds(s: Session, event: Event)
    ensures After(s, event).seenIds ==
            if event.Enqueue? && Accepts(s, event.command) then Remembered(s.seenIds, event.command.commandId) else s.seenIds
  {
    hide CapabilitiesFault, AppliedFault, ControlsFault, ReflectedBy, ChangesFormat;
  }

  lemma RememberedAreLast(ids: seq<text>, id: text)
    ensures Remembered(LastIds(ids), id) == LastIds(ids + [id])
  {
  }

  lemma WindowGrows(ids: seq<text>, id: text)
    requires DistinctWindow(ids) && id !in LastIds(ids)
    ensures DistinctWindow(ids + [id])
  {
    var all := ids + [id];
    forall i | 0 <= i < |ids| && |ids| - i <= RECENT_COMMAND_ID_LIMIT ensures all[i] != id {
      assert ids[i] in LastIds(ids) by {
        var first := |ids| - |LastIds(ids)|;
        assert LastIds(ids)[i - first] == ids[i];
      }
    }
  }

  /** No id repeats within the last 256 accepted commands, and exactly those ids are remembered. */
  lemma {:induction false} IdsDistinctInWindow(begin: Session, events: seq<Event>)
    requires Fresh(begin)
    ensures Run(begin, events).seenIds == LastIds(AcceptedIds(begin, events))
    ensures DistinctWindow(AcceptedIds(begin, events))
  {
    if events != [] {
      var front, last := events[..|events| - 1], events[|events| - 1];
      hide After, Accepts;
      IdsDistinctInWindow(begin, front);
      StepRemembersIds(Run(begin, front), last);
      var ids := AcceptedIds(begin, front);
      if last.Enqueue? && Accepts(Run(begin, front), last.command) {
        RememberedAreLast(ids, last.command.commandId);
        AcceptedIsNew(Run(begin, front), last.command);
        WindowGrows(ids, last.command.commandId);
      }
    }
  }

  lemma AcceptedIsNew(s: Session, command: Command)
    requires Accepts(s, command)
    ensures command.commandId !in s.seenIds
  {
  }
}
