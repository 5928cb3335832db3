/**
 * Runs of the phone protocol: one in which every command is applied and heard
 * of, one in which a reused id breaks the outcome, one with an aborted step.
 */
module PhoneRuns {
  import opened Wrappers
  import opened Bytes
  import opened Camera
  import opened CameraSession
  import opened PhoneProtocol

  /** Ids a server accepts one after the other. */
  predicate Issuable(ids: seq<text>)
  {
    DistinctWindow(ids) && forall i :: 0 <= i < |ids| ==> IdValid(ids[i])
  }

  // ------------------------------------------------ the parts of a run

  /** A live server that has accepted `ids[..k]`; the last of them is pending or none is. */
  predicate Serving(server: Session, ids: seq<text>, k: nat, pending: bool)
    requires k <= |ids|
  {
    && server.sessionId == [] && server.status.Live? && server.capabilities == OneCamera
    && server.outputFormat == Some(OneFormat) && server.seenIds == LastIds(ids[..k])
    && (if pending
        then k > 0 && server.pendingSince == Some(0) && server.pending.Some?
             && server.pending.value == Command([], ids[k - 1], server.pending.value.expectedRevision, NoControls)
        else server.pending.None?)
  }

  /** What a run has made of its commands so far. */
  datatype Trace = Trace(applied: seq<nat>, ended: seq<Ended>, acknowledged: seq<Acknowledgement>)

  const Untouched := Trace([], [], [])

  function TraceOf(s: System): Trace
  {
    Trace(s.applied, s.ended, s.acknowledged)
  }

  predicate Stands(s: System, ids: seq<text>, k: nat, pending: bool, phone: Phone, trace: Trace)
    requires k <= |ids|
  {
    && Serving(s.server, ids, k, pending)
    && s.accepted == ids[..k] && s.phone == phone && TraceOf(s) == trace
  }

  function Holding(id: text, cycle: Cycle): Phone
  {
    Phone(Streaming, id, [], cycle)
  }

  /** Every cycle the phone begins gets its answer. */
  predicate NothingLost(steps: seq<Step>)
  {
    forall i :: 0 <= i < |steps| ==> !steps[i].CycleFails? && !steps[i].Finishes?
  }

  /** One more step of a run. */
  lemma Go(steps: seq<Step>, s: System, step: Step) returns (longer: seq<Step>, next: System)
    requires PhoneProtocol.Run(Begin([], 0), steps) == Some(s) && Next(s, step).Some?
    ensures longer == steps + [step] && Some(next) == Next(s, step) && PhoneProtocol.Run(Begin([], 0), longer) == Some(next)
  {
    longer, next := steps + [step], Next(s, step).value;
    assert longer[..|steps|] == steps;
  }

  lemma GoesLiveFirst() returns (steps: seq<Step>, s: System)
    ensures PhoneProtocol.Run(Begin([], 0), steps) == Some(s)
    ensures forall ids :: Stands(s, ids, 0, false, Holding([], Idle), Untouched)
    ensures NothingLost(steps)
  {
    hide CapabilitiesFault, AppliedFault, FormatMatches, FormatValid;
    OneCameraValidates(false);
    steps, s := [], Begin([], 0);
    assert PhoneProtocol.Run(s, steps) == Some(s);
    hide PhoneProtocol.Run;
    steps, s := Go(steps, s, Serves(Offer(OneCamera, Shown(false), OneFormat, 0)));
    steps, s := Go(steps, s, GoesLive);
  }

  function Ask(s: System, id: text): Event
  {
    Enqueue(Command([], id, s.server.revision, NoControls), 0)
  }

  lemma AskingServer(server: Session, ids: seq<text>, k: nat, command: Command)
    requires Issuable(ids) && k < |ids| && Serving(server, ids, k, false)
    requires command == Command([], ids[k], server.revision, NoControls)
    ensures Accepts(server, command) && Serving(After(server, Enqueue(command, 0)), ids, k + 1, true)
  {
    hide CapabilitiesFault, ControlsFault, IdValid;
    OneCameraValidates(false);
    assert ids[k] !in LastIds(ids[..k]) by {
      hide *;
      NewInWindow(ids, k);
    }
    assert ids[..k + 1] == ids[..k] + [ids[k]];
    RememberedAreLast(ids[..k], ids[k]);
    hide Remembered, LastIds, DistinctWindow;
  }

  lemma NewInWindow(ids: seq<text>, k: nat)
    requires DistinctWindow(ids) && k < |ids|
    ensures ids[k] !in LastIds(ids[..k])
  {
  }

  lemma Asks(s: System, ids: seq<text>, k: nat, phone: Phone, trace: Trace)
    requires Issuable(ids) && k < |ids| && Stands(s, ids, k, false, phone, trace)
    ensures Stands(Served(s, Ask(s, ids[k])), ids, k + 1, true, phone, trace)
  {
    AskingServer(s.server, ids, k, Ask(s, ids[k]).command);
    hide Serving, After, Accepts;
    assert ids[..k + 1] == ids[..k] + [ids[k]];
  }

  lemma TimesOut(s: System, ids: seq<text>, k: nat, phone: Phone, trace: Trace)
    requires k <= |ids| && Stands(s, ids, k, true, phone, trace)
    ensures Stands(Served(s, ExpirePending(COMMAND_TIMEOUT)), ids, k, false, phone, trace)
  {
  }

  /** Every further command up to `m` is accepted and times out. */
  lemma {:induction false} TimeOutUntil(steps: seq<Step>, s: System, ids: seq<text>, k: nat, m: nat,
                                        phone: Phone, trace: Trace)
    returns (longer: seq<Step>, next: System)
    requires Issuable(ids) && k <= m <= |ids|
    requires PhoneProtocol.Run(Begin([], 0), steps) == Some(s) && Stands(s, ids, k, false, phone, trace)
    ensures PhoneProtocol.Run(Begin([], 0), longer) == Some(next) && Stands(next, ids, m, false, phone, trace)
    decreases m - k
  {
    hide PhoneProtocol.Run, Begin, Stands, Issuable, Served;
    if k == m {
      longer, next := steps, s;
    } else {
      longer, next := GoAsks(steps, s, ids, k, phone, trace);
      TimesOut(next, ids, k + 1, phone, trace);
      longer, next := Go(longer, next, Serves(ExpirePending(COMMAND_TIMEOUT)));
      longer, next := TimeOutUntil(longer, next, ids, k + 1, m, phone, trace);
    }
  }

  const Plain := Heartbeat([], None, None, None, None)

  lemma PlainBeat(server: Session, ids: seq<text>, k: nat)
    requires k <= |ids| && Serving(server, ids, k, true)
    ensures BeatRefusal(server, Plain, 0).None?
    ensures Serving(Beaten(server, Plain, 0), ids, k, true) && Beaten(server, Plain, 0).pending == server.pending
  {
    hide CapabilitiesFault;
    OneCameraValidates(false);
  }

  /** The phone asks for the state and is answered with the pending command. */
  lemma HearsPending(steps: seq<Step>, s: System, ids: seq<text>, k: nat, held: text, trace: Trace)
    returns (longer: seq<Step>, next: System)
    requires 0 < k <= |ids| && ids[k - 1] != [] && (held == [] || held == ids[k - 1])
    requires PhoneProtocol.Run(Begin([], 0), steps) == Some(s) && Stands(s, ids, k, true, Holding(held, Idle), trace)
    ensures PhoneProtocol.Run(Begin([], 0), longer) == Some(next)
    ensures Stands(next, ids, k, true, Holding(ids[k - 1], if held == [] then Applying else Acknowledging),
                   if held == [] then trace.(applied := trace.applied + [k - 1]) else trace)
    ensures NothingLost(steps) ==> NothingLost(longer)
  {
    hide PhoneProtocol.Run, Begin;
    var r, q := |s.requests|, |s.responses|;
    longer, next := Go(steps, s, SendsState(None, None));
    assert Update(next, next.requests[r]) == Plain;
    PlainBeat(next.server, ids, k);
    hide Beaten, BeatRefusal;
    longer, next := Go(longer, next, Delivers(r, 0));
    assert next.responses[q] == Response(r, Snapshot(false, s.server.pending, k - 1));
    longer, next := Go(longer, next, Receives(q));
  }

  function Receipt(id: text): Heartbeat
  {
    Heartbeat([], None, Some(Shown(false)), Some(id), None)
  }

  /** The acknowledgement of command `k - 1` without an error. */
  function Fine(ids: seq<text>, k: nat): Acknowledgement
    requires 0 < k <= |ids|
  {
    Acknowledgement(k - 1, Some(CommandOutcome(ids[k - 1], AppliedAsAsked, None)))
  }

  lemma ReceiptBeat(server: Session, ids: seq<text>, k: nat)
    requires 0 < k <= |ids| && Serving(server, ids, k, true)
    ensures BeatRefusal(server, Receipt(ids[k - 1]), 0).None?
    ensures Serving(Beaten(server, Receipt(ids[k - 1]), 0), ids, k, false)
    ensures Beaten(server, Receipt(ids[k - 1]), 0).lastOutcome == Fine(ids, k).outcome
  {
    hide CapabilitiesFault, AppliedFault, ReflectedBy;
    OneCameraValidates(false);
  }

  /** The phone's acknowledgement is taken, and an answer without a pending command on its way. */
  lemma DeliversReceipt(steps: seq<Step>, s: System, ids: seq<text>, k: nat, trace: Trace)
    returns (longer: seq<Step>, next: System)
    requires 0 < k <= |ids|
    requires PhoneProtocol.Run(Begin([], 0), steps) == Some(s) && Stands(s, ids, k, true, Holding(ids[k - 1], Acknowledging), trace)
    ensures PhoneProtocol.Run(Begin([], 0), longer) == Some(next)
    ensures Stands(next, ids, k, false, Holding(ids[k - 1], AwaitingReceipt(|s.requests|)),
                   trace.(acknowledged := trace.acknowledged + [Fine(ids, k)]))
    ensures |next.responses| > 0 && AnswersFree(next.responses[|next.responses| - 1], |s.requests|)
    ensures NothingLost(steps) ==> NothingLost(longer)
  {
    hide PhoneProtocol.Run, Begin;
    var r := |s.requests|;
    longer, next := Go(steps, s, SendsReceipt(None, Some(Shown(false))));
    assert Update(next, next.requests[r]) == Receipt(ids[k - 1]);
    ReceiptBeat(next.server, ids, k);
    hide Beaten, BeatRefusal;
    longer, next := Go(longer, next, Delivers(r, 0));
  }

  /** An answer to request `r` that shows nothing pending. */
  predicate AnswersFree(response: Response, r: nat)
  {
    response.request == r && response.reply.Snapshot? && !response.reply.stopped && response.reply.pending.None?
  }

  /** The phone's acknowledgement is taken, and the answer to it lost. */
  lemma LosesReceipt(steps: seq<Step>, s: System, ids: seq<text>, k: nat, trace: Trace)
    returns (longer: seq<Step>, next: System)
    requires 0 < k <= |ids|
    requires PhoneProtocol.Run(Begin([], 0), steps) == Some(s) && Stands(s, ids, k, true, Holding(ids[k - 1], Acknowledging), trace)
    ensures PhoneProtocol.Run(Begin([], 0), longer) == Some(next)
    ensures Stands(next, ids, k, false, Holding(ids[k - 1], Idle), trace.(acknowledged := trace.acknowledged + [Fine(ids, k)]))
  {
    hide PhoneProtocol.Run, Begin;
    longer, next := DeliversReceipt(steps, s, ids, k, trace);
    longer, next := Go(longer, next, CycleFails);
  }

  /** One more command is accepted, and pending. */
  lemma GoAsks(steps: seq<Step>, s: System, ids: seq<text>, k: nat, phone: Phone, trace: Trace)
    returns (longer: seq<Step>, next: System)
    requires Issuable(ids) && k < |ids|
    requires PhoneProtocol.Run(Begin([], 0), steps) == Some(s) && Stands(s, ids, k, false, phone, trace)
    ensures PhoneProtocol.Run(Begin([], 0), longer) == Some(next) && Stands(next, ids, k + 1, true, phone, trace)
    ensures NothingLost(steps) ==> NothingLost(longer)
  {
    hide PhoneProtocol.Run, Begin, Stands, Issuable, Served;
    Asks(s, ids, k, phone, trace);
    longer, next := Go(steps, s, Serves(Ask(s, ids[k])));
  }

  /** An apply step ends without an error to report. */
  lemma EndsApply(steps: seq<Step>, s: System, ids: seq<text>, k: nat, ending: Ending, trace: Trace)
    returns (longer: seq<Step>, next: System)
    requires 0 < k <= |ids| && !ending.Failed? && trace.applied != [] && trace.applied[|trace.applied| - 1] == k - 1
    requires PhoneProtocol.Run(Begin([], 0), steps) == Some(s) && Stands(s, ids, k, true, Holding(ids[k - 1], Applying), trace)
    ensures PhoneProtocol.Run(Begin([], 0), longer) == Some(next)
    ensures Stands(next, ids, k, true, Holding(ids[k - 1], if ending.Aborted? then Idle else Acknowledging),
                   trace.(ended := trace.ended + [Ended(k - 1, ending)]))
    ensures NothingLost(steps) ==> NothingLost(longer)
  {
    hide PhoneProtocol.Run, Begin;
    longer, next := Go(steps, s, ApplyEnds(ending));
  }

  /** Command `i` was applied and acknowledged, and nothing else was. */
  function OneApplied(ids: seq<text>, i: nat): Trace
    requires i < |ids|
  {
    Trace([i], [Ended(i, Succeeded)], [Fine(ids, i + 1)])
  }

  /** Command `i` is applied and acknowledged, but the phone never hears so. */
  lemma AppliesUnheard(steps: seq<Step>, s: System, ids: seq<text>, i: nat) returns (longer: seq<Step>, next: System)
    requires Issuable(ids) && i < |ids| && ids[i] != []
    requires PhoneProtocol.Run(Begin([], 0), steps) == Some(s) && Stands(s, ids, i, false, Holding([], Idle), Untouched)
    ensures PhoneProtocol.Run(Begin([], 0), longer) == Some(next)
    ensures Stands(next, ids, i + 1, false, Holding(ids[i], Idle), OneApplied(ids, i))
  {
    hide Issuable, PhoneProtocol.Run, Begin, Stands;
    longer, next := GoAsks(steps, s, ids, i, Holding([], Idle), Untouched);
    longer, next := HearsPending(longer, next, ids, i + 1, [], Untouched);
    var started := Untouched.(applied := Untouched.applied + [i]);
    longer, next := EndsApply(longer, next, ids, i + 1, Succeeded, started);
    var ended := started.(ended := started.ended + [Ended(i, Succeeded)]);
    longer, next := LosesReceipt(longer, next, ids, i + 1, ended);
    assert ended.(acknowledged := ended.acknowledged + [Fine(ids, i + 1)]) == OneApplied(ids, i);
  }

  /** Command `n` has the id of one applied unheard: the phone acknowledges it without applying anything. */
  lemma AcknowledgesUnapplied(steps: seq<Step>, s: System, ids: seq<text>, n: nat, trace: Trace)
    returns (longer: seq<Step>, next: System)
    requires Issuable(ids) && n < |ids| && ids[n] != []
    requires PhoneProtocol.Run(Begin([], 0), steps) == Some(s) && Stands(s, ids, n, false, Holding(ids[n], Idle), trace)
    ensures PhoneProtocol.Run(Begin([], 0), longer) == Some(next)
    ensures Stands(next, ids, n + 1, false, Holding(ids[n], Idle), trace.(acknowledged := trace.acknowledged + [Fine(ids, n + 1)]))
  {
    hide *;
    longer, next := GoAsks(steps, s, ids, n, Holding(ids[n], Idle), trace);
    longer, next := HearsPending(longer, next, ids, n + 1, ids[n], trace);
    longer, next := LosesReceipt(longer, next, ids, n + 1, trace);
  }

  lemma IdsNotEmpty(ids: seq<text>, i: nat)
    requires Issuable(ids) && i < |ids|
    ensures ids[i] != []
  {
    assert IdValid(ids[i]);
  }

  /** Command `i` is applied unheard; the commands before it and after it, up to `n`, time out. */
  lemma OneUnheard(ids: seq<text>, i: nat, n: nat) returns (steps: seq<Step>, s: System)
    requires Issuable(ids) && i < n < |ids|
    ensures PhoneProtocol.Run(Begin([], 0), steps) == Some(s) && Stands(s, ids, n, false, Holding(ids[i], Idle), OneApplied(ids, i))
  {
    hide *;
    IdsNotEmpty(ids, i);
    steps, s := GoesLiveFirst();
    steps, s := TimeOutUntil(steps, s, ids, 0, i, Holding([], Idle), Untouched);
    steps, s := AppliesUnheard(steps, s, ids, i);
    steps, s := TimeOutUntil(steps, s, ids, i + 1, n, Holding(ids[i], Idle), OneApplied(ids, i));
  }

  /** After a command was applied unheard, the next ones time out unseen, until one reuses its id. */
  lemma ReuseBreaks(ids: seq<text>, i: nat, n: nat) returns (steps: seq<Step>, s: System)
    requires Issuable(ids) && i < n < |ids| && ids[i] == ids[n]
    ensures PhoneProtocol.Run(Begin([], 0), steps) == Some(s) && s.accepted == ids && !Genuine(s)
  {
    hide *;
    IdsNotEmpty(ids, n);
    steps, s := OneUnheard(ids, i, n);
    var trace := OneApplied(ids, i);
    steps, s := AcknowledgesUnapplied(steps, s, ids, n, trace);
    var last := trace.(acknowledged := trace.acknowledged + [Fine(ids, n + 1)]);
    steps, s := TimeOutUntil(steps, s, ids, n + 1, |ids|, Holding(ids[n], Idle), last);
    NotGenuine(s, ids, i, n, ids[n]);
  }

  lemma NotGenuine(s: System, ids: seq<text>, i: nat, n: nat, id: text)
    requires i < n < |ids|
    requires var trace := OneApplied(ids, i);
             Stands(s, ids, |ids|, false, Holding(id, Idle), trace.(acknowledged := trace.acknowledged + [Fine(ids, n + 1)]))
    ensures s.accepted == ids && !Genuine(s)
  {
    assert s.acknowledged[1] == Fine(ids, n + 1);
  }

  /**
   * An apply step that is aborted leaves its command taken on without an
   * error, so the next cycle acknowledges it and the server shows it applied.
   */
  lemma AbortedIsShownApplied(id: text) returns (steps: seq<Step>, s: System)
    requires IdValid(id)
    ensures PhoneProtocol.Run(Begin([], 0), steps) == Some(s) && s.accepted == [id]
    ensures s.ended == [Ended(0, Aborted)]
    ensures s.acknowledged == [Acknowledgement(0, Some(CommandOutcome(id, AppliedAsAsked, None)))]
  {
    var ids := [id];
    assert Issuable(ids);
    hide Issuable, PhoneProtocol.Run, Begin, Stands;
    steps, s := GoesLiveFirst();
    steps, s := GoAsks(steps, s, ids, 0, Holding([], Idle), Untouched);
    steps, s := HearsPending(steps, s, ids, 1, [], Untouched);
    var started := Untouched.(applied := Untouched.applied + [0]);
    steps, s := EndsApply(steps, s, ids, 1, Aborted, started);
    var ended := started.(ended := started.ended + [Ended(0, Aborted)]);
    steps, s := HearsPending(steps, s, ids, 1, id, ended);
    steps, s := LosesReceipt(steps, s, ids, 1, ended);
    StandsMeans(s, ids, Holding(id, Idle), ended.(acknowledged := ended.acknowledged + [Fine(ids, 1)]));
  }

  lemma StandsMeans(s: System, ids: seq<text>, phone: Phone, trace: Trace)
    requires Stands(s, ids, |ids|, false, phone, trace)
    ensures s.accepted == ids && TraceOf(s) == trace
  {
  }

  /**
   * Acknowledged outcomes can be trusted exactly when the desktop never gives
   * two accepted commands the same id.
   */
  lemma GenuineExactly(ids: seq<text>)
    requires Issuable(ids)
    ensures AlwaysGenuine(ids) <==> Distinct(ids)
  {
    hide PhoneProtocol.Run, Begin, DistinctWindow, IsGenuine, IsStale;
    if Distinct(ids) {
      forall sessionId, now, steps | PhoneProtocol.Run(Begin(sessionId, now), steps).Some? && PhoneProtocol.Run(Begin(sessionId, now), steps).value.accepted == ids
        ensures Genuine(PhoneProtocol.Run(Begin(sessionId, now), steps).value)
      {
        var s := PhoneProtocol.Run(Begin(sessionId, now), steps).value;
        forall k | 0 <= k < |s.acknowledged| ensures IsGenuine(s, s.acknowledged[k]) {
          AcknowledgedWereApplied(sessionId, now, steps, k);
          NeverStale(s, s.acknowledged[k]);
        }
      }
    } else {
      var i, n :| 0 <= i < n < |ids| && ids[i] == ids[n];
      var steps, s := ReuseBreaks(ids, i, n);
    }
  }

  // ------------------------------------------------- a run without losses

  /** The phone's acknowledgement is taken, and the answer heard: the phone is free again. */
  lemma HearsReceipt(steps: seq<Step>, s: System, ids: seq<text>, k: nat, trace: Trace)
    returns (longer: seq<Step>, next: System)
    requires 0 < k <= |ids|
    requires PhoneProtocol.Run(Begin([], 0), steps) == Some(s) && Stands(s, ids, k, true, Holding(ids[k - 1], Acknowledging), trace)
    ensures PhoneProtocol.Run(Begin([], 0), longer) == Some(next)
    ensures Stands(next, ids, k, false, Holding([], Idle), trace.(acknowledged := trace.acknowledged + [Fine(ids, k)]))
    ensures NothingLost(steps) ==> NothingLost(longer)
  {
    hide PhoneProtocol.Run, Begin;
    longer, next := DeliversReceipt(steps, s, ids, k, trace);
    hide Serving, Fine;
    longer, next := Go(longer, next, Receives(|next.responses| - 1));
  }

  /** The first `k` commands were each applied and acknowledged, in order. */
  function AllApplied(ids: seq<text>, k: nat): Trace
    requires k <= |ids|
  {
    Trace(seq(k, i requires 0 <= i < k => i), seq(k, i requires 0 <= i < k => Ended(i, Succeeded)),
          seq(k, i requires 0 <= i < k => Fine(ids, i + 1)))
  }

  lemma NothingApplied(ids: seq<text>)
    ensures AllApplied(ids, 0) == Untouched
  {
  }

  lemma OneMoreApplied(ids: seq<text>, k: nat)
    requires k < |ids|
    ensures var done := AllApplied(ids, k);
            AllApplied(ids, k + 1) ==
            Trace(done.applied + [k], done.ended + [Ended(k, Succeeded)], done.acknowledged + [Fine(ids, k + 1)])
  {
  }

  lemma AppliesHeard(steps: seq<Step>, s: System, ids: seq<text>, k: nat) returns (longer: seq<Step>, next: System)
    requires Issuable(ids) && k < |ids| && ids[k] != []
    requires PhoneProtocol.Run(Begin([], 0), steps) == Some(s) && Stands(s, ids, k, false, Holding([], Idle), AllApplied(ids, k)) && NothingLost(steps)
    ensures PhoneProtocol.Run(Begin([], 0), longer) == Some(next)
    ensures Stands(next, ids, k + 1, false, Holding([], Idle), AllApplied(ids, k + 1)) && NothingLost(longer)
  {
    hide *;
    var done := AllApplied(ids, k);
    longer, next := GoAsks(steps, s, ids, k, Holding([], Idle), done);
    longer, next := HearsPending(longer, next, ids, k + 1, [], done);
    var started := done.(applied := done.applied + [k]);
    longer, next := EndsApply(longer, next, ids, k + 1, Succeeded, started);
    var ended := started.(ended := started.ended + [Ended(k, Succeeded)]);
    longer, next := HearsReceipt(longer, next, ids, k + 1, ended);
    OneMoreApplied(ids, k);
  }

  lemma {:induction false} AllHeard(ids: seq<text>, k: nat) returns (steps: seq<Step>, s: System)
    requires Issuable(ids) && k <= |ids|
    ensures PhoneProtocol.Run(Begin([], 0), steps) == Some(s)
    ensures Stands(s, ids, k, false, Holding([], Idle), AllApplied(ids, k)) && NothingLost(steps)
    decreases k
  {
    hide *;
    if k == 0 {
      steps, s := GoesLiveFirst();
      NothingApplied(ids);
    } else {
      steps, s := AllHeard(ids, k - 1);
      IdsNotEmpty(ids, k - 1);
      steps, s := AppliesHeard(steps, s, ids, k - 1);
    }
  }

  /**
   * Every list of ids the server would accept can be worked off: there is a
   * run in which no answer is lost, each command is applied, in order, and
   * each is acknowledged as applied.
   */
  lemma EveryListCanBeApplied(ids: seq<text>) returns (steps: seq<Step>, s: System)
    requires Issuable(ids)
    ensures PhoneProtocol.Run(Begin([], 0), steps) == Some(s) && NothingLost(steps)
    ensures s.accepted == ids && s.applied == seq(|ids|, i => i)
    ensures |s.acknowledged| == |ids|
    ensures forall i :: 0 <= i < |ids| ==>
              s.acknowledged[i] == Acknowledgement(i, Some(CommandOutcome(ids[i], AppliedAsAsked, None)))
    ensures s.phone.phase.Streaming? && s.phone.pendingId == [] && s.phone.cycle.Idle?
  {
    steps, s := AllHeard(ids, |ids|);
    StandsMeans(s, ids, Holding([], Idle), AllApplied(ids, |ids|));
    hide PhoneProtocol.Run, Begin;
  }
}
