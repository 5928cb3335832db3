/**
 * The camera session told by its events alone: who was heard last and what they
 * said, what a command or a heartbeat needs to be accepted, and what every
 * revision counts.
 */
module SessionHistory {
  import opened Wrappers
  import opened Bytes
  import opened Camera
  import opened CameraSession

  /** Event `i` was accepted as a report of the phone, or as a command. */
  predicate Lands(begin: Session, events: seq<Event>, i: nat)
    requires i < |events|
  {
    LandsOn(Run(begin, events[..i]), events[i])
  }

  predicate LandsOn(s: Session, event: Event)
  {
    match event
    case Offer(_, _, _, _) => OfferAccepted(s, event)
    case Enqueue(command, _) => CommandRefusal(s, command).None?
    case Beat(update, now) => BeatRefusal(s, update, now).None?
    case _ => false
  }

  /** Event `i` ends the session, if nothing has before. */
  predicate EndsSession(begin: Session, events: seq<Event>, i: nat)
    requires i < |events|
  {
    EndsOn(Run(begin, events[..i]), events[i])
  }

  predicate EndsOn(s: Session, event: Event)
  {
    || event.Stop?
    || (event.Enqueue? && event.command.sessionId == s.sessionId && event.command.controls.stop == Some(true))
    || (event.ExpireHeartbeat? && Silent(s, event.listenedAt))
  }

  predicate EndedBy(begin: Session, events: seq<Event>)
  {
    exists i :: 0 <= i < |events| && EndsSession(begin, events, i)
  }

  predicate OfferedBy(begin: Session, events: seq<Event>)
  {
    exists i :: 0 <= i < |events| && events[i].Offer? && Lands(begin, events, i)
  }

  /** A session is stopped once anything has ended it, and live from an accepted offer to then. */
  predicate StatusAsTold(begin: Session, events: seq<Event>, s: Session)
  {
    s.status == (if EndedBy(begin, events) then Stopped else if OfferedBy(begin, events) then Live else Waiting)
  }

  // ----------------------------------------------------- what was heard last

  /** What the session keeps of the phone's reports. */
  datatype Kept = Time | Cameras | Settings | Format

  predicate Carries(event: Event, what: Kept)
  {
    || event.Offer?
    || (event.Beat? && match what
                       case Time => true
                       case Cameras => event.update.capabilities.Some?
                       case Settings => event.update.applied.Some?
                       case Format => false)
  }

  /** Event `i` is the last accepted report that says `what`. */
  predicate LastToSay(begin: Session, events: seq<Event>, i: nat, what: Kept)
    requires i < |events|
  {
    && Carries(events[i], what) && Lands(begin, events, i)
    && forall j :: i < j < |events| ==> !(Carries(events[j], what) && Lands(begin, events, j))
  }

  predicate KeepsWhat(s: Session, event: Event, what: Kept)
    requires Carries(event, what)
  {
    match what
    case Time => s.heartbeatAt == (if event.Offer? then event.offeredAt else event.beatAt)
    case Cameras => s.capabilities == (if event.Offer? then event.caps else event.update.capabilities.value)
    case Settings => s.applied == Some(if event.Offer? then event.applied else event.update.applied.value)
    case Format => s.outputFormat == Some(event.format)
  }

  predicate SameOf(s: Session, next: Session, what: Kept)
  {
    match what
    case Time => next.heartbeatAt == s.heartbeatAt
    case Cameras => next.capabilities == s.capabilities
    case Settings => next.applied == s.applied
    case Format => next.outputFormat == s.outputFormat
  }

  /** What the session keeps is what was said last. */
  predicate KeptAsTold(begin: Session, events: seq<Event>, s: Session, what: Kept)
  {
    || (SameOf(begin, s, what) && forall i :: 0 <= i < |events| ==> !(Carries(events[i], what) && Lands(begin, events, i)))
    || (exists i :: 0 <= i < |events| && LastToSay(begin, events, i, what) && KeepsWhat(s, events[i], what))
  }

  lemma OneMore(begin: Session, events: seq<Event>, event: Event)
    ensures var all := events + [event];
            && (forall j :: 0 <= j < |events| ==> all[j] == events[j] && (Lands(begin, all, j) <==> Lands(begin, events, j))
                                                  && (EndsSession(begin, all, j) <==> EndsSession(begin, events, j)))
            && (Lands(begin, all, |events|) <==> LandsOn(Run(begin, events), event))
            && (EndsSession(begin, all, |events|) <==> EndsOn(Run(begin, events), event))
            && Run(begin, all) == After(Run(begin, events), event)
  {
    hide Run, After, LandsOn, EndsOn;
    var all := events + [event];
    assert all[..|events|] == events && all[..|events| + 1] == all;
    RunNext(begin, all, |events|);
    forall j | 0 <= j < |events| ensures all[..j] == events[..j] {
    }
  }

  lemma StepStatus(s: Session, event: Event)
    ensures After(s, event).status ==
            (if EndsOn(s, event) then Stopped
             else if event.Offer? && LandsOn(s, event) then Live
             else s.status)
    ensures event.Offer? && LandsOn(s, event) ==> s.status.Waiting?
  {
    hide CapabilitiesFault, AppliedFault, ControlsFault, ReflectedBy, ChangesFormat, FormatMatches, FormatValid, IdValid, HeartbeatRefusal;
  }

  lemma StatusTold(begin: Session, events: seq<Event>, event: Event)
    requires StatusAsTold(begin, events, Run(begin, events))
    ensures StatusAsTold(begin, events + [event], Run(begin, events + [event]))
  {
    hide Run, After, Lands, LandsOn, EndsSession, EndsOn;
    var all := events + [event];
    OneMore(begin, events, event);
    StepStatus(Run(begin, events), event);
    assert all[|events|] == event;
    if EndedBy(begin, events) {
      var i :| 0 <= i < |events| && EndsSession(begin, events, i);
      assert EndsSession(begin, all, i);
    }
    if OfferedBy(begin, events) {
      var i :| 0 <= i < |events| && events[i].Offer? && Lands(begin, events, i);
      assert all[i].Offer? && Lands(begin, all, i);
    }
    if EndsOn(Run(begin, events), event) {
      assert EndsSession(begin, all, |events|);
    }
    if event.Offer? && LandsOn(Run(begin, events), event) {
      assert all[|events|].Offer? && Lands(begin, all, |events|);
    }
  }

  lemma StepKeeps(s: Session, event: Event, what: Kept)
    ensures if Carries(event, what) && LandsOn(s, event) then KeepsWhat(After(s, event), event, what)
            else SameOf(s, After(s, event), what)
  {
    hide CapabilitiesFault, AppliedFault, ControlsFault, ReflectedBy, ChangesFormat, FormatMatches, FormatValid, IdValid, Beaten, BeatRefusal;
    if event.Beat? {
      BeatKeeps(s, event.update, event.beatAt, what);
    }
  }

  lemma BeatKeeps(s: Session, update: Heartbeat, now: Instant, what: Kept)
    ensures var event, next := Beat(update, now), Beaten(s, update, now);
            if Carries(event, what) && BeatRefusal(s, update, now).None? then KeepsWhat(next, event, what) else SameOf(s, next, what)
  {
    hide HeartbeatRefusal, OutcomeOf, Overdue;
  }

  lemma KeptTold(begin: Session, events: seq<Event>, event: Event, what: Kept)
    requires KeptAsTold(begin, events, Run(begin, events), what)
    ensures KeptAsTold(begin, events + [event], Run(begin, events + [event]), what)
  {
    hide Run, After, Lands, LandsOn, EndsSession, EndsOn, Carries, KeepsWhat;
    var all, s := events + [event], Run(begin, events);
    OneMore(begin, events, event);
    StepKeeps(s, event, what);
    assert all[|events|] == event;
    if Carries(event, what) && LandsOn(s, event) {
      assert LastToSay(begin, all, |events|, what);
    } else if exists i :: 0 <= i < |events| && LastToSay(begin, events, i, what) && KeepsWhat(s, events[i], what) {
      var i :| 0 <= i < |events| && LastToSay(begin, events, i, what) && KeepsWhat(s, events[i], what);
      assert LastToSay(begin, all, i, what);
      SameKeeps(s, Run(begin, all), events[i], what);
    }
  }

  lemma SameKeeps(s: Session, next: Session, event: Event, what: Kept)
    requires Carries(event, what) && KeepsWhat(s, event, what) && SameOf(s, next, what)
    ensures KeepsWhat(next, event, what)
  {
  }

  lemma NothingTold(begin: Session)
    requires Fresh(begin)
    ensures StatusAsTold(begin, [], begin)
    ensures forall what :: KeptAsTold(begin, [], begin, what)
  {
  }

  /**
   * After any run the session is live exactly from an accepted offer to the
   * first end, and its heartbeat time, cameras and settings are those of the
   * last accepted offer or heartbeat that gave them.
   */
  lemma {:induction false} SessionAsTold(begin: Session, events: seq<Event>)
    requires Fresh(begin)
    ensures StatusAsTold(begin, events, Run(begin, events))
    ensures forall what :: KeptAsTold(begin, events, Run(begin, events), what)
    decreases |events|
  {
    hide After, StatusAsTold, KeptAsTold;
    if events == [] {
      NothingTold(begin);
    } else {
      var front, last := events[..|events| - 1], events[|events| - 1];
      assert front + [last] == events;
      SessionAsTold(begin, front);
      StatusTold(begin, front, last);
      forall what ensures KeptAsTold(begin, events, Run(begin, events), what) {
        KeptTold(begin, front, last, what);
      }
    }
  }

  /**
   * A live session was last heard of at event `i`; the next look at the heartbeat
   * stops it exactly when more than eight seconds have passed since, and
   * otherwise changes nothing.
   */
  lemma HeartbeatKeepsAlive(begin: Session, events: seq<Event>, now: Instant) returns (i: nat)
    requires Fresh(begin) && OfferedBy(begin, events) && !EndedBy(begin, events)
    ensures i < |events| && LastToSay(begin, events, i, Time)
    ensures var heard := if events[i].Offer? then events[i].offeredAt else events[i].beatAt;
            var next := Run(begin, events + [ExpireHeartbeat(now)]);
            if now > heard + 8_000_000_000 then next.status.Stopped? else next == Run(begin, events)
  {
    hide Run, Lands, EndsSession;
    SessionAsTold(begin, events);
    OneMore(begin, events, ExpireHeartbeat(now));
    assert KeptAsTold(begin, events, Run(begin, events), Time);
    var o :| 0 <= o < |events| && events[o].Offer? && Lands(begin, events, o);
    assert Carries(events[o], Time);
    i :| 0 <= i < |events| && LastToSay(begin, events, i, Time) && KeepsWhat(Run(begin, events), events[i], Time);
  }


  // --------------------------------------------------- commands and deadlines

  /** The command under way and when it was accepted. */
  function UnderWay(begin: Session, events: seq<Event>): Option<Entry>
  {
    var history := History(begin, events);
    if |history| % 2 == 1 then Some(history[|history| - 1]) else None
  }

  /** It is under way and not yet ten seconds old. */
  predicate Awaited(begin: Session, events: seq<Event>, id: text, now: Instant)
  {
    var entry := UnderWay(begin, events);
    entry.Some? && entry.value.Accepted? && entry.value.command.commandId == id && now < entry.value.at + 10_000_000_000
  }

  predicate LiveBy(begin: Session, events: seq<Event>)
  {
    OfferedBy(begin, events) && !EndedBy(begin, events)
  }

  /** Why a command is refused, told by the events before it. */
  function WhyRefused(begin: Session, events: seq<Event>, command: Command): Option<CommandError>
  {
    var s := Run(begin, events);
    if command.sessionId != begin.sessionId then Some(StaleRevision)
    else if command.controls.stop == Some(true) then None
    else if !LiveBy(begin, events) then Some(NotLive)
    else if command.expectedRevision != s.revision then Some(StaleRevision)
    else if UnderWay(begin, events).Some? then Some(AlreadyPending)
    else if !IdValid(command.commandId) then Some(InvalidId)
    else if command.commandId in LastIds(AcceptedIds(begin, events)) then Some(ReusedId)
    else if s.outputFormat.Some? && ChangesFormat(s.outputFormat.value, command.controls) then Some(FormatChangeUnavailable)
    else if ControlsFault(command.controls, s.capabilities).Some? then
      Some(InvalidControls(ControlsFault(command.controls, s.capabilities).value))
    else None
  }

  /** Why a heartbeat is refused, told by the events before it. */
  function WhyUnheard(begin: Session, events: seq<Event>, update: Heartbeat, now: Instant): Option<HeartbeatError>
  {
    var caps := if update.capabilities.Some? then update.capabilities.value else Run(begin, events).capabilities;
    if update.sessionId != begin.sessionId then Some(WrongSession)
    else if !LiveBy(begin, events) then Some(SessionNotLive)
    else if CapabilitiesFault(caps).Some? then Some(InvalidCapabilities(CapabilitiesFault(caps).value))
    else if update.commandId.Some? && !Awaited(begin, events, update.commandId.value, now) then Some(StaleAcknowledgement)
    else if update.applied.Some? && AppliedFault(update.applied.value, caps).Some? then
      Some(InvalidAppliedState(AppliedFault(update.applied.value, caps).value))
    else if update.commandId.Some? && update.applied.None? then Some(MissingAppliedState)
    else None
  }

  lemma {:induction false} IdStays(begin: Session, events: seq<Event>)
    ensures Run(begin, events).sessionId == begin.sessionId
    decreases |events|
  {
    hide After;
    if events != [] {
      IdStays(begin, events[..|events| - 1]);
      StepKeepsId(Run(begin, events[..|events| - 1]), events[|events| - 1]);
    }
  }

  lemma StepKeepsId(s: Session, event: Event)
    ensures After(s, event).sessionId == s.sessionId
  {
    hide CapabilitiesFault, AppliedFault, ControlsFault, ReflectedBy, ChangesFormat, FormatMatches, FormatValid, IdValid, HeartbeatRefusal;
  }

  /** Live and pending, told by the events. */
  lemma StateTold(begin: Session, events: seq<Event>)
    requires Fresh(begin)
    ensures var s, entry := Run(begin, events), UnderWay(begin, events);
            && s.sessionId == begin.sessionId
            && (s.status.Live? <==> LiveBy(begin, events))
            && (s.pending.Some? <==> entry.Some?) && (s.pendingSince.Some? <==> entry.Some?)
            && (entry.Some? ==> entry.value == Accepted(s.pending.value, s.pendingSince.value))
            && s.seenIds == LastIds(AcceptedIds(begin, events))
  {
    hide Run, OfferedBy, EndedBy, AcceptedIds, LastIds, DistinctWindow, Alternates, AbandonedLast, ShowsOutcome, LiveIsSound, History, IdValid;
    IdStays(begin, events);
    SessionAsTold(begin, events);
    EveryCommandResolvedOnce(begin, events);
    EveryStateIsSound(begin, events);
    IdsDistinctInWindow(begin, events);
  }

  /** Every command and every heartbeat is accepted or refused for what the events before it say. */
  lemma AcceptedExactly(begin: Session, events: seq<Event>, command: Command, update: Heartbeat, now: Instant)
    requires Fresh(begin)
    ensures CommandRefusal(Run(begin, events), command) == WhyRefused(begin, events, command)
    ensures BeatRefusal(Run(begin, events), update, now) == WhyUnheard(begin, events, update, now)
  {
    hide Run, LiveBy, UnderWay, AcceptedIds, LastIds, CapabilitiesFault, AppliedFault, ControlsFault, ChangesFormat, IdValid;
    StateTold(begin, events);
  }

  /** The deadline passes ten seconds after the command was accepted, no sooner. */
  lemma DeadlineExactly(begin: Session, events: seq<Event>, command: Command, at: Instant, now: Instant)
    requires Fresh(begin) && UnderWay(begin, events) == Some(Accepted(command, at))
    ensures var all := events + [ExpirePending(now)];
            if now >= at + 10_000_000_000 then
              && History(begin, all) == History(begin, events) + [Resolved(command, TimedOut(now))]
              && Run(begin, all).pending.None?
            else Run(begin, all) == Run(begin, events)
  {
    hide Run;
    var all := events + [ExpirePending(now)];
    assert all[..|events|] == events;
    StateTold(begin, events);
    OneMore(begin, events, ExpirePending(now));
  }

  /** The outcome says whether the phone reported an error, and otherwise whether it shows what was asked. */
  predicate RightOutcome(command: Command, shown: Applied, error: Option<text>, outcome: CommandOutcome)
  {
    && outcome.commandId == command.commandId
    && (outcome.verdict.Rejected? <==> error.Some? && error.value != [])
    && (!outcome.verdict.Rejected? ==> (outcome.verdict.AppliedAsAsked? <==> ReflectedBy(command.controls, shown)))
    && outcome.message == (match outcome.verdict
                           case AppliedAsAsked => None
                           case Adjusted => Some(AppliedDifferently(shown.width, shown.height, shown.fps))
                           case Rejected => Some(Told(error.GetOr([]))))
  }

  /** What a heartbeat of a live session makes of the command under way: the deadline first, then the acknowledgement. */
  lemma HeardExactly(begin: Session, events: seq<Event>, command: Command, at: Instant, update: Heartbeat, now: Instant)
    requires Fresh(begin) && UnderWay(begin, events) == Some(Accepted(command, at)) && update.sessionId == begin.sessionId
    ensures var history, all := History(begin, events), History(begin, events + [Beat(update, now)]);
            if now >= at + 10_000_000_000 then all == history + [Resolved(command, TimedOut(now))]
            else if WhyUnheard(begin, events, update, now).None? && update.commandId.Some? then
              exists outcome ::
                RightOutcome(command, update.applied.value, update.error, outcome)
                && all == history + [Resolved(command, Acknowledged(now, outcome, update.applied.value))]
            else all == history
  {
    hide Run, WhyUnheard, LiveBy, UnderWay, AcceptedIds, LastIds;
    var s, all := Run(begin, events), events + [Beat(update, now)];
    assert all[..|events|] == events;
    StateTold(begin, events);
    EveryStateIsSound(begin, events);
    AcceptedExactly(begin, events, command, update, now);
    BeatAdds(s, update, now);
    if s.pendingSince.value + 10_000_000_000 > now && BeatRefusal(s, update, now).None? && update.commandId.Some? {
      OutcomeIsRight(s.pending.value, update.applied.value, update.error);
    }
  }

  lemma OutcomeIsRight(command: Command, shown: Applied, error: Option<text>)
    ensures RightOutcome(command, shown, error, OutcomeOf(command, shown, error))
  {
  }

  lemma BeatAdds(s: Session, update: Heartbeat, now: Instant)
    requires s.pending.Some? && s.pendingSince.Some? && s.status.Live? && update.sessionId == s.sessionId
    ensures BeatRefusal(s, update, now).None? && update.commandId.Some? ==> update.applied.Some?
    ensures Entries(s, Beat(update, now)) ==
            if now >= s.pendingSince.value + 10_000_000_000 then [Resolved(s.pending.value, TimedOut(now))]
            else if BeatRefusal(s, update, now).None? && update.commandId.Some? then
              [Resolved(s.pending.value, Acknowledged(now, OutcomeOf(s.pending.value, update.applied.value, update.error), update.applied.value))]
            else []
  {
    hide CapabilitiesFault, AppliedFault, OutcomeOf;
  }

  // -------------------------------------------------------------- revisions

  function CountOf(holds: bool): nat
  {
    if holds then 1 else 0
  }

  /** What one event adds to the revision: one for a missed deadline, and one for an acknowledgement or another view. */
  function Revises(s: Session, event: Event): nat
  {
    var added := Entries(s, event);
    CountOf(added != [] && added[0].Resolved? && added[0].how.TimedOut?)
    + CountOf(View(After(s, event)) != View(s) || (added != [] && added[0].Resolved? && added[0].how.Acknowledged?))
  }

  function Revisions(begin: Session, events: seq<Event>): nat
    decreases |events|
  {
    if events == [] then 0
    else
      var front, last := events[..|events| - 1], events[|events| - 1];
      Revisions(begin, front) + Revises(Run(begin, front), last)
  }

  /** The revision counts exactly the missed deadlines, the acknowledgements and the changes of the view, until it saturates. */
  lemma {:induction false} RevisionCounts(begin: Session, events: seq<Event>)
    requires Fresh(begin)
    ensures Run(begin, events).revision == if Revisions(begin, events) <= U64_MAX then Revisions(begin, events) else U64_MAX
    decreases |events|
  {
    if events != [] {
      hide After, Revises, PendingIsSound, LiveIsSound;
      var front, last := events[..|events| - 1], events[|events| - 1];
      RevisionCounts(begin, front);
      EveryStateIsSound(begin, front);
      StepRevises(Run(begin, front), last);
    }
  }

  /** `next` has `n` revisions more than `s`, until they saturate. */
  predicate Counts(s: Session, next: Session, n: nat)
  {
    next.revision == if s.revision + n <= U64_MAX then s.revision + n else U64_MAX
  }

  lemma StepRevises(s: Session, event: Event)
    requires PendingIsSound(s) && LiveIsSound(s)
    ensures Counts(s, After(s, event), Revises(s, event))
  {
    hide CapabilitiesFault, AppliedFault, ControlsFault, ReflectedBy, ChangesFormat, FormatMatches, FormatValid, IdValid, HeartbeatRefusal;
    if event.Beat? {
      BeatRevises(s, event.update, event.beatAt);
    }
  }

  lemma BeatRevises(s: Session, update: Heartbeat, now: Instant)
    requires PendingIsSound(s)
    ensures Counts(s, Beaten(s, update, now), Revises(s, Beat(update, now)))
  {
    if BeatRefusal(s, update, now).Some? {
      hide HeartbeatRefusal, IdValid, OutcomeOf;
    } else if update.commandId.Some? {
      ReceiptIsOfPending(s, update, now);
      hide HeartbeatRefusal, IdValid, OutcomeOf;
    } else {
      hide HeartbeatRefusal, IdValid, OutcomeOf;
    }
  }

  // ------------------------------------------------------------------ words

  /** What one event makes the session say, if it says anything: no error, or one. */
  function Says(s: Session, event: Event): Option<Option<Message>>
  {
    var added := Entries(s, event);
    if s.status.Stopped? then None
    else
      match event
      case Stop(reason) => Some(Some(reason))
      case ExpireHeartbeat(_) => if EndsOn(s, event) then Some(Some(HeartbeatExpired)) else None
      case Enqueue(_, _) => if EndsOn(s, event) then Some(Some(StoppedFromDesktop)) else if LandsOn(s, event) then Some(None) else None
      case Offer(_, _, _, _) => if LandsOn(s, event) then Some(None) else None
      case ExpirePending(_) => if added != [] then Some(Some(DeadlineMissed)) else None
      case Beat(update, _) =>
        if LandsOn(s, event) && update.commandId.None? && update.error.Some? then Some(Some(Told(update.error.value)))
        else if added == [] || added[0].Accepted? then None
        else match added[0].how
             case TimedOut(_) => Some(Some(DeadlineMissed))
             case Acknowledged(_, outcome, _) => Some(outcome.message)
             case Abandoned => None
  }

  function LastWord(begin: Session, events: seq<Event>): Option<Message>
    decreases |events|
  {
    if events == [] then None
    else
      var front, last := events[..|events| - 1], events[|events| - 1];
      Says(Run(begin, front), last).GetOr(LastWord(begin, front))
  }

  /** The last command in the history that timed out or was acknowledged. */
  function LastDecided(history: seq<Entry>): Option<text>
  {
    if history == [] then None
    else
      var last := history[|history| - 1];
      if last.Resolved? && !last.how.Abandoned? then Some(last.command.commandId) else LastDecided(history[..|history| - 1])
  }

  lemma StepSays(s: Session, event: Event)
    requires PendingIsSound(s) && LiveIsSound(s)
    ensures After(s, event).error == Says(s, event).GetOr(s.error)
    ensures |Entries(s, event)| <= 1
    ensures After(s, event).lastCommandId ==
            if Entries(s, event) != [] && Entries(s, event)[0].Resolved? && !Entries(s, event)[0].how.Abandoned? then
              Some(Entries(s, event)[0].command.commandId)
            else s.lastCommandId
  {
    hide CapabilitiesFault, AppliedFault, ControlsFault, ReflectedBy, ChangesFormat, FormatMatches, FormatValid, IdValid;
    if event.Beat? {
      BeatSays(s, event.update, event.beatAt);
    }
  }

  /** What a heartbeat does to the words, in the words of what it adds to the history. */
  predicate BeatSpeaks(s: Session, next: Session, event: Event)
    requires event.Beat?
  {
    && next.error == Says(s, event).GetOr(s.error)
    && next.lastCommandId ==
       if Entries(s, event) != [] && Entries(s, event)[0].Resolved? && !Entries(s, event)[0].how.Abandoned? then
         Some(Entries(s, event)[0].command.commandId)
       else s.lastCommandId
  }

  lemma BeatSays(s: Session, update: Heartbeat, now: Instant)
    requires PendingIsSound(s)
    ensures BeatSpeaks(s, Beaten(s, update, now), Beat(update, now))
  {
    hide Beaten, BeatSpeaks;
    if BeatRefusal(s, update, now).Some? {
      RefusedSays(s, update, now);
    } else if update.commandId.Some? {
      ReceiptSays(s, update, now);
    } else {
      NewsSays(s, update, now);
    }
  }

  lemma RefusedSays(s: Session, update: Heartbeat, now: Instant)
    requires PendingIsSound(s) && BeatRefusal(s, update, now).Some?
    ensures BeatSpeaks(s, Beaten(s, update, now), Beat(update, now))
  {
    hide HeartbeatRefusal, IdValid, OutcomeOf;
  }

  lemma ReceiptSays(s: Session, update: Heartbeat, now: Instant)
    requires PendingIsSound(s) && BeatRefusal(s, update, now).None? && update.commandId.Some?
    ensures BeatSpeaks(s, Beaten(s, update, now), Beat(update, now))
  {
    ReceiptIsOfPending(s, update, now);
    hide HeartbeatRefusal, IdValid, OutcomeOf;
  }

  lemma ReceiptIsOfPending(s: Session, update: Heartbeat, now: Instant)
    requires BeatRefusal(s, update, now).None? && update.commandId.Some?
    ensures s.pending.Some? && !Overdue(s, now) && update.applied.Some?
  {
    hide CapabilitiesFault, AppliedFault;
  }

  lemma NewsSays(s: Session, update: Heartbeat, now: Instant)
    requires PendingIsSound(s) && BeatRefusal(s, update, now).None? && update.commandId.None?
    ensures BeatSpeaks(s, Beaten(s, update, now), Beat(update, now))
  {
    hide HeartbeatRefusal, IdValid, OutcomeOf;
  }

  lemma DecidedAppend(history: seq<Entry>, added: seq<Entry>)
    requires |added| <= 1
    ensures LastDecided(history + added) ==
            if added != [] && added[0].Resolved? && !added[0].how.Abandoned? then Some(added[0].command.commandId)
            else LastDecided(history)
  {
    if added == [] {
      assert history + added == history;
    } else {
      assert (history + added)[..|history|] == history;
    }
  }

  /** The error shown is the last word, and the last command named is the last one decided. */
  lemma {:induction false} WordsAreTheLast(begin: Session, events: seq<Event>)
    requires Fresh(begin)
    ensures Run(begin, events).error == LastWord(begin, events)
    ensures Run(begin, events).lastCommandId == LastDecided(History(begin, events))
    decreases |events|
  {
    if events != [] {
      hide After, Says, Entries, LastDecided, PendingIsSound, LiveIsSound;
      var front, last := events[..|events| - 1], events[|events| - 1];
      WordsAreTheLast(begin, front);
      EveryStateIsSound(begin, front);
      StepSays(Run(begin, front), last);
      DecidedAppend(History(begin, front), Entries(Run(begin, front), last));
    }
  }
}
