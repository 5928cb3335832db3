/**
 * The authorization state told by the events alone: which of them have happened,
 * and which have happened since. With `SessionPolicy.Takes` on earlier events
 * only, this decides every later success.
 */
module PolicyHistory {
  import opened Wrappers
  import opened Bytes
  import opened SessionPolicy

  // -------------------------------------------------------- what is in force

  /** The last trust or forget event is a trust event. */
  predicate TrustedBy(events: seq<Event>)
  {
    exists i :: 0 <= i < |events| && events[i].TrustPeer? && NotForgotten(events, i + 1)
  }

  predicate NotForgotten(events: seq<Event>, from: nat)
  {
    forall j :: from <= j < |events| ==> !events[j].ForgetPeer?
  }

  /** The peer authenticated, and has been neither lost nor forgotten since. */
  predicate OnlineBy(events: seq<Event>)
  {
    exists i :: 0 <= i < |events| && events[i].AuthenticateConnection? && Takes(events, i) && NotGone(events, i + 1)
  }

  predicate NotGone(events: seq<Event>, from: nat)
  {
    forall j :: from <= j < |events| ==> !events[j].ForgetPeer? && !events[j].ConnectionLost?
  }

  /** The peer was lost, and has neither authenticated nor been forgotten since. */
  predicate LostBy(events: seq<Event>)
  {
    exists i :: 0 <= i < |events| && events[i].ConnectionLost? && NotBack(events, i + 1)
  }

  predicate NotBack(events: seq<Event>, from: nat)
  {
    forall j :: from <= j < |events| ==> !events[j].ForgetPeer? && !(events[j].AuthenticateConnection? && Takes(events, j))
  }

  /** How far a session has got. */
  datatype Stage = Requested | Granted | Started

  predicate Marks(stage: Stage, event: Event)
  {
    match stage
    case Requested => event.RequestStart?
    case Granted => event.GrantConsent?
    case Started => event.CaptureStarted?
  }

  /** An event of that stage succeeded, and no session has ended since. */
  predicate Reached(events: seq<Event>, stage: Stage)
  {
    exists i :: 0 <= i < |events| && Marks(stage, events[i]) && Takes(events, i) && NoEnd(events, i + 1, |events|)
  }

  /** The last output event, if any, reported it ready. */
  predicate ReadyBy(events: seq<Event>)
  {
    exists i :: 0 <= i < |events| && events[i].SetOutputReady? && NotFailed(events, i + 1)
  }

  predicate NotFailed(events: seq<Event>, from: nat)
  {
    forall j :: from <= j < |events| ==> !events[j].SetOutputFailed?
  }

  predicate SetBy(events: seq<Event>)
  {
    exists i :: 0 <= i < |events| && (events[i].SetOutputReady? || events[i].SetOutputFailed?)
  }

  /** Event `j` makes a frame accepted at `at` count no longer: another one, an end, a lost connection, or a tick 500 ms later. */
  predicate Outdates(events: seq<Event>, j: nat, at: nat)
    requires j < |events|
  {
    || Ends(events, j)
    || events[j].ConnectionLost?
    || (events[j].AcceptFrame? && Takes(events, j))
    || (events[j].Tick? && events[j].nowMs >= at + 500)
  }

  /** Event `i` accepted a frame that still counts. */
  predicate Framed(events: seq<Event>, i: nat)
    requires i < |events|
  {
    && events[i].AcceptFrame? && Takes(events, i)
    && forall j :: i < j < |events| ==> !Outdates(events, j, events[i].acceptedAtMs)
  }

  predicate FramedAt(events: seq<Event>, i: nat, at: u64)
    requires i < |events|
  {
    Framed(events, i) && events[i].acceptedAtMs == at
  }

  /** Event `i` accepted a frame while the output was ready, and the output has not been set since. */
  predicate MadeLive(events: seq<Event>, i: nat)
    requires i < |events|
  {
    && ReadyBy(events[..i])
    && forall j :: i <= j < |events| ==> !events[j].SetOutputReady? && !events[j].SetOutputFailed?
  }

  predicate LiveBy(events: seq<Event>)
  {
    exists i :: 0 <= i < |events| && Framed(events, i) && MadeLive(events, i)
  }

  // ------------------------------------------------------- one more event

  lemma TrustGrows(events: seq<Event>, event: Event)
    ensures TrustedBy(events + [event]) <==> event.TrustPeer? || (TrustedBy(events) && !event.ForgetPeer?)
  {
    var all := events + [event];
    if TrustedBy(events) && !event.ForgetPeer? {
      var i :| 0 <= i < |events| && events[i].TrustPeer? && NotForgotten(events, i + 1);
      assert all[i].TrustPeer? && NotForgotten(all, i + 1);
    }
    if event.TrustPeer? {
      assert all[|events|].TrustPeer? && NotForgotten(all, |events| + 1);
    }
    if TrustedBy(all) && !event.TrustPeer? {
      var i :| 0 <= i < |all| && all[i].TrustPeer? && NotForgotten(all, i + 1);
      assert all[|events|] == event;
      assert NotForgotten(events, i + 1) by {
        assert forall j :: 0 <= j < |events| ==> all[j] == events[j];
      }
    }
  }

  /** What the earlier events did is the same with one more behind them. */
  lemma OneMore(events: seq<Event>, event: Event)
    ensures var all := events + [event];
            && (forall j :: 0 <= j < |events| ==> all[j] == events[j] && (Takes(all, j) <==> Takes(events, j)) && (Ends(all, j) <==> Ends(events, j)))
            && (Takes(all, |events|) <==> Refusal(Run(events), event).None?)
            && (Ends(all, |events|) <==> EndsAt(Run(events), event))
            && Run(all) == After(Run(events), event)
  {
    hide Run, Refusal, EndsAt, After;
    var all := events + [event];
    assert all[..|events|] == events;
    forall j | 0 <= j < |events| ensures (Takes(all, j) <==> Takes(events, j)) && (Ends(all, j) <==> Ends(events, j)) {
      PrefixAgrees(all, |events|, j);
    }
    OneMoreEvent(events, event);
  }


  lemma OnlineGrows(events: seq<Event>, event: Event)
    ensures OnlineBy(events + [event]) <==>
            || (event.AuthenticateConnection? && Refusal(Run(events), event).None?)
            || (OnlineBy(events) && !event.ForgetPeer? && !event.ConnectionLost?)
  {
    hide Run, Takes, Ends, Refusal;
    var all := events + [event];
    OneMore(events, event);
    if OnlineBy(events) && !event.ForgetPeer? && !event.ConnectionLost? {
      var i :| 0 <= i < |events| && events[i].AuthenticateConnection? && Takes(events, i) && NotGone(events, i + 1);
      assert all[i].AuthenticateConnection? && Takes(all, i) && NotGone(all, i + 1);
    }
    if event.AuthenticateConnection? && Takes(all, |events|) {
      assert all[|events|].AuthenticateConnection? && NotGone(all, |events| + 1);
    }
    if OnlineBy(all) && !(event.AuthenticateConnection? && Takes(all, |events|)) {
      var i :| 0 <= i < |all| && all[i].AuthenticateConnection? && Takes(all, i) && NotGone(all, i + 1);
      assert all[|events|] == event;
      assert NotGone(events, i + 1);
    }
  }

  lemma LostGrows(events: seq<Event>, event: Event)
    ensures LostBy(events + [event]) <==>
            || event.ConnectionLost?
            || (LostBy(events) && !event.ForgetPeer? && !(event.AuthenticateConnection? && Refusal(Run(events), event).None?))
  {
    hide Run, Takes, Ends, Refusal;
    var all := events + [event];
    OneMore(events, event);
    if LostBy(events) && !event.ForgetPeer? && !(event.AuthenticateConnection? && Takes(all, |events|)) {
      var i :| 0 <= i < |events| && events[i].ConnectionLost? && NotBack(events, i + 1);
      assert all[i].ConnectionLost? && NotBack(all, i + 1);
    }
    if event.ConnectionLost? {
      assert all[|events|].ConnectionLost? && NotBack(all, |events| + 1);
    }
    if LostBy(all) && !event.ConnectionLost? {
      var i :| 0 <= i < |all| && all[i].ConnectionLost? && NotBack(all, i + 1);
      assert all[|events|] == event;
      assert NotBack(events, i + 1);
    }
  }

  lemma StageGrows(events: seq<Event>, event: Event, stage: Stage)
    ensures Reached(events + [event], stage) <==>
            || (Marks(stage, event) && Refusal(Run(events), event).None?)
            || (Reached(events, stage) && !EndsAt(Run(events), event))
  {
    hide Run, Takes, Ends, Refusal, EndsAt, Marks;
    var all := events + [event];
    OneMore(events, event);
    if Reached(events, stage) && !Ends(all, |events|) {
      var i :| 0 <= i < |events| && Marks(stage, events[i]) && Takes(events, i) && NoEnd(events, i + 1, |events|);
      assert Marks(stage, all[i]) && Takes(all, i) && NoEnd(all, i + 1, |all|);
    }
    if Marks(stage, event) && Takes(all, |events|) {
      assert Marks(stage, all[|events|]) && NoEnd(all, |events| + 1, |all|);
    }
    if Reached(all, stage) && !(Marks(stage, event) && Takes(all, |events|)) {
      var i :| 0 <= i < |all| && Marks(stage, all[i]) && Takes(all, i) && NoEnd(all, i + 1, |all|);
      assert all[|events|] == event;
      assert NoEnd(events, i + 1, |events|);
    }
  }

  lemma ReadyGrows(events: seq<Event>, event: Event)
    ensures ReadyBy(events + [event]) <==> event.SetOutputReady? || (ReadyBy(events) && !event.SetOutputFailed?)
    ensures SetBy(events + [event]) <==> event.SetOutputReady? || event.SetOutputFailed? || SetBy(events)
  {
    var all := events + [event];
    assert forall j :: 0 <= j < |events| ==> all[j] == events[j];
    assert all[|events|] == event;
    if ReadyBy(events) && !event.SetOutputFailed? {
      var i :| 0 <= i < |events| && events[i].SetOutputReady? && NotFailed(events, i + 1);
      assert all[i].SetOutputReady? && NotFailed(all, i + 1);
    }
    if event.SetOutputReady? {
      assert all[|events|].SetOutputReady? && NotFailed(all, |events| + 1);
    }
    if ReadyBy(all) && !event.SetOutputReady? {
      var i :| 0 <= i < |all| && all[i].SetOutputReady? && NotFailed(all, i + 1);
      assert NotFailed(events, i + 1);
    }
    if SetBy(events) {
      var i :| 0 <= i < |events| && (events[i].SetOutputReady? || events[i].SetOutputFailed?);
      assert all[i].SetOutputReady? || all[i].SetOutputFailed?;
    }
  }

  lemma FrameGrows(events: seq<Event>, event: Event, i: nat)
    requires i <= |events|
    ensures var all := events + [event];
            Framed(all, i) <==>
            if i == |events| then event.AcceptFrame? && Refusal(Run(events), event).None?
            else
              && Framed(events, i) && !EndsAt(Run(events), event) && !event.ConnectionLost?
              && !(event.AcceptFrame? && Refusal(Run(events), event).None?)
              && !(event.Tick? && event.nowMs >= events[i].acceptedAtMs + 500)
  {
    hide Run, Takes, Ends, Refusal, EndsAt;
    var all := events + [event];
    OneMore(events, event);
    assert all[|events|] == event;
    if i < |events| && events[i].AcceptFrame? {
      var at: nat := events[i].acceptedAtMs;
      assert forall j :: i < j < |events| ==> (Outdates(all, j, at) <==> Outdates(events, j, at));
      assert Outdates(all, |events|, at) <==>
             || Ends(all, |events|) || event.ConnectionLost? || (event.AcceptFrame? && Takes(all, |events|))
             || (event.Tick? && event.nowMs >= at + 500);
      hide Outdates;
      assert Framed(all, i) <==> Framed(events, i) && !Outdates(all, |events|, at);
    }
  }

  lemma LiveGrows(events: seq<Event>, event: Event, i: nat)
    requires i <= |events|
    ensures MadeLive(events + [event], i) <==>
            && (if i == |events| then ReadyBy(events) else MadeLive(events, i))
            && !event.SetOutputReady? && !event.SetOutputFailed?
  {
    var all := events + [event];
    assert all[|events|] == event;
    assert all[..i] == events[..i];
    assert forall j :: i < j < |events| ==> all[j] == events[j];
    hide ReadyBy;
    if i == |events| {
      assert all[..i] == events;
    } else if MadeLive(all, i) {
      assert !all[|events|].SetOutputReady? && !all[|events|].SetOutputFailed?;
    }
  }

  // -------------------------------------------------------------- the state

  /** The state is what the events say. */
  predicate TrustAsTold(events: seq<Event>, p: Policy)
  {
    && (p.trust.Trusted? <==> TrustedBy(events))
    && (p.connection.Online? <==> OnlineBy(events))
    && (p.connection.Recovering? <==> LostBy(events))
  }

  predicate CaptureAsTold(events: seq<Event>, p: Policy)
  {
    p.capture == (if Reached(events, Started) then Streaming
                  else if Reached(events, Granted) then Starting
                  else if Reached(events, Requested) then AwaitingConsent
                  else Idle)
  }

  predicate OutputAsTold(events: seq<Event>, p: Policy)
  {
    p.output == (if !SetBy(events) then Missing
                 else if !ReadyBy(events) then OutputFailed
                 else if LiveBy(events) then ReadyLive
                 else ReadyNeutral)
  }

  predicate FrameAsTold(events: seq<Event>, p: Policy)
  {
    && (p.lastFrameAtMs.None? ==> forall i :: 0 <= i < |events| ==> !Framed(events, i))
    && (p.lastFrameAtMs.Some? ==>
          exists i :: 0 <= i < |events| && FramedAt(events, i, p.lastFrameAtMs.value))
  }

  lemma TrustTold(events: seq<Event>, event: Event)
    requires TrustAsTold(events, Run(events))
    ensures TrustAsTold(events + [event], Run(events + [event]))
  {
    hide Run, TrustedBy, OnlineBy, LostBy;
    OneMore(events, event);
    TrustGrows(events, event);
    OnlineGrows(events, event);
    LostGrows(events, event);
  }

  lemma CaptureTold(events: seq<Event>, event: Event)
    requires CaptureAsTold(events, Run(events)) && StagesNest(events)
    ensures CaptureAsTold(events + [event], Run(events + [event])) && StagesNest(events + [event])
  {
    hide Run, Reached;
    EveryStateIsConsistent(events);
    OneMore(events, event);
    StageGrows(events, event, Started);
    StageGrows(events, event, Granted);
    StageGrows(events, event, Requested);
  }

  predicate StagesNest(events: seq<Event>)
  {
    (Reached(events, Started) ==> Reached(events, Granted)) && (Reached(events, Granted) ==> Reached(events, Requested))
  }


  /** Only the last accepted frame counts. */
  lemma FramedOnce(events: seq<Event>, i: nat, j: nat)
    requires i < |events| && j < |events| && Framed(events, i) && Framed(events, j)
    ensures i == j
  {
    hide Takes, Ends;
    assert i < j ==> Outdates(events, j, events[i].acceptedAtMs);
    assert j < i ==> Outdates(events, i, events[j].acceptedAtMs);
  }

  lemma FrameTold(events: seq<Event>, event: Event)
    requires FrameAsTold(events, Run(events))
    ensures FrameAsTold(events + [event], Run(events + [event]))
  {
    hide Run, Framed;
    var all, p := events + [event], Run(events);
    EveryStateIsConsistent(events);
    OneMore(events, event);
    forall i | 0 <= i < |all| ensures Framed(all, i) ==> Run(all).lastFrameAtMs.Some? {
      FrameGrows(events, event, i);
      if p.lastFrameAtMs.Some? {
        var k :| 0 <= k < |events| && FramedAt(events, k, p.lastFrameAtMs.value);
        if i < |events| && Framed(events, i) {
          FramedOnce(events, i, k);
        }
      }
    }
    if Run(all).lastFrameAtMs.Some? {
      if event.AcceptFrame? && Refusal(p, event).None? {
        FrameGrows(events, event, |events|);
        assert all[|events|] == event;
        assert FramedAt(all, |events|, event.acceptedAtMs);
      } else {
        var k :| 0 <= k < |events| && FramedAt(events, k, p.lastFrameAtMs.value);
        FrameGrows(events, event, k);
        assert all[k] == events[k];
        assert FramedAt(all, k, p.lastFrameAtMs.value);
      }
    }
  }

  lemma LiveIsReady(events: seq<Event>, i: nat)
    requires i < |events| && MadeLive(events, i)
    ensures ReadyBy(events) && SetBy(events)
    ensures ReadyBy(events[..i]) && SetBy(events[..i])
  {
    var k :| 0 <= k < i && events[..i][k].SetOutputReady? && NotFailed(events[..i], k + 1);
    assert events[k].SetOutputReady?;
    assert forall j :: 0 <= j < i ==> events[..i][j] == events[j];
    assert NotFailed(events, k + 1) by {
      forall j | k + 1 <= j < |events| ensures !events[j].SetOutputFailed? {
        if j < i {
          assert !events[..i][j].SetOutputFailed?;
        }
      }
    }
  }

  lemma OutputTold(events: seq<Event>, event: Event)
    requires FrameAsTold(events, Run(events)) && OutputAsTold(events, Run(events))
    ensures OutputAsTold(events + [event], Run(events + [event]))
  {
    hide Run, Framed, MadeLive, ReadyBy, SetBy;
    var all, p := events + [event], Run(events);
    EveryStateIsConsistent(events);
    OneMore(events, event);
    ReadyGrows(events, event);
    forall i | 0 <= i < |all| && Framed(all, i) && MadeLive(all, i) ensures ReadyBy(all) && Run(all).output.ReadyLive? {
      FrameGrows(events, event, i);
      LiveGrows(events, event, i);
      LiveIsReady(all, i);
      assert all[..|events|] == events;
      if i < |events| {
        var m :| 0 <= m < |events| && FramedAt(events, m, p.lastFrameAtMs.value);
        FramedOnce(events, i, m);
      }
    }
    if Run(all).output.ReadyLive? {
      if event.AcceptFrame? && Refusal(p, event).None? {
        FrameGrows(events, event, |events|);
        LiveGrows(events, event, |events|);
      } else {
        var k :| 0 <= k < |events| && Framed(events, k) && MadeLive(events, k);
        var m :| 0 <= m < |events| && FramedAt(events, m, p.lastFrameAtMs.value);
        FramedOnce(events, k, m);
        FrameGrows(events, event, k);
        LiveGrows(events, event, k);
      }
    }
  }


  lemma NothingTold()
    ensures TrustAsTold([], Default) && CaptureAsTold([], Default) && OutputAsTold([], Default) && FrameAsTold([], Default)
    ensures StagesNest([])
  {
  }

  /**
   * After any run the state is what the events tell: trusted exactly when the
   * last trust or forget event was a trust event, in a session exactly when a
   * request stands, live exactly when the last accepted frame still counts and
   * made a ready output live.
   */
  lemma {:induction false} StateAsTold(events: seq<Event>)
    ensures var p := Run(events);
            && TrustAsTold(events, p) && CaptureAsTold(events, p) && OutputAsTold(events, p) && FrameAsTold(events, p)
            && StagesNest(events)
  {
    hide TrustAsTold, CaptureAsTold, OutputAsTold, FrameAsTold, StagesNest, After;
    if events == [] {
      NothingTold();
    } else {
      var front, last := events[..|events| - 1], events[|events| - 1];
      assert front + [last] == events;
      StateAsTold(front);
      TrustTold(front, last);
      CaptureTold(front, last);
      FrameTold(front, last);
      OutputTold(front, last);
    }
  }

  /** How often a consent succeeded or a session ended. */
  function Turns(events: seq<Event>): nat
  {
    if events == [] then 0
    else
      var front, n := events[..|events| - 1], |events| - 1;
      Turns(front) + if (events[n].GrantConsent? && Takes(events, n)) || (Ends(events, n) && Reached(front, Requested)) then 1 else 0
  }

  lemma IdleTold(events: seq<Event>)
    ensures Run(events).capture.Idle? <==> !Reached(events, Requested)
  {
    hide Run, Reached, TrustAsTold, OutputAsTold, FrameAsTold;
    StateAsTold(events);
  }

  lemma {:induction false} TurnsAreChanges(events: seq<Event>)
    ensures Turns(events) == Changes(events)
  {
    hide Run, Reached, After, Refusal, EndsAt, Invariant;
    if events != [] {
      var front, last := events[..|events| - 1], events[|events| - 1];
      assert front + [last] == events;
      TurnsAreChanges(front);
      IdleTold(front);
      EveryStateIsConsistent(front);
      OneMore(front, last);
      TurnsOnce(Run(front), last);
    }
  }

  /** The generation counts those turns, modulo 2^64. */
  lemma GenerationTold(events: seq<Event>)
    ensures Run(events).generation == Turns(events) % (U64_MAX + 1)
  {
    TurnsAreChanges(events);
    GenerationCounts(events);
  }

  lemma TurnsOnce(p: Policy, event: Event)
    requires Invariant(p)
    ensures After(p, event).generation != p.generation <==>
            (event.GrantConsent? && Refusal(p, event).None?) || (EndsAt(p, event) && !p.capture.Idle?)
  {
  }

  /** Why `event` is refused, told by the events before it; a pending consent is never refused for lack of trust. */
  function WhyNot(events: seq<Event>, event: Event): Option<PolicyError>
  {
    var current := Turns(events) % (U64_MAX + 1);
    match event
    case AuthenticateConnection =>
      if TrustedBy(events) then None else Some(PeerNotTrusted)
    case RequestStart =>
      if !TrustedBy(events) then Some(PeerNotTrusted)
      else if !OnlineBy(events) then Some(PeerOffline)
      else if Reached(events, Requested) then Some(CaptureBusy)
      else None
    case GrantConsent(_) =>
      if !Reached(events, Requested) || Reached(events, Granted) then Some(ConsentNotPending)
      else if !OnlineBy(events) then Some(PeerOffline)
      else None
    case CaptureStarted(generation) =>
      if generation != current then Some(StaleGeneration)
      else if !Reached(events, Granted) || Reached(events, Started) then Some(SessionNotStarting)
      else None
    case RefreshLease(generation, _) =>
      if generation != current then Some(StaleGeneration)
      else if !Reached(events, Granted) then Some(SessionNotStreaming)
      else None
    case AcceptFrame(generation, _) =>
      if generation != current then Some(StaleGeneration)
      else if !Reached(events, Started) then Some(SessionNotStreaming)
      else None
    case _ => None
  }

  /** Every success and every refusal, told by the events before it. */
  lemma SucceedsExactly(events: seq<Event>, event: Event)
    ensures Refusal(Run(events), event) == WhyNot(events, event)
  {
    hide Run, Reached, TrustedBy, OnlineBy, LostBy, OutputAsTold, FrameAsTold, Turns, Changes;
    StateAsTold(events);
    EveryStateIsConsistent(events);
    GenerationTold(events);
  }

  /** A tick ends a granted session from ten seconds after its last authorization on, or at the end of time. */
  lemma ExpiresExactly(events: seq<Event>, nowMs: u64)
    ensures EndsAt(Run(events), Tick(nowMs)) <==>
            && Reached(events, Granted) && LastAuthorization(events).Some?
            && (nowMs >= LastAuthorization(events).value + 10_000 || nowMs == U64_MAX)
  {
    hide Run, Reached, TrustAsTold, OutputAsTold, FrameAsTold, LastAuthorization;
    StateAsTold(events);
    EveryStateIsConsistent(events);
    TimesAreRemembered(events);
  }

  /** An event that needs a peer's authority. */
  predicate NeedsPeer(event: Event)
  {
    || event.AuthenticateConnection? || event.RequestStart? || event.GrantConsent?
    || event.CaptureStarted? || event.RefreshLease? || event.AcceptFrame?
  }

  /** From a forget event to the next trust event nothing that needs a peer's authority succeeds. */
  lemma ForgottenIsPowerless(events: seq<Event>, f: nat, event: Event)
    requires f < |events| && events[f].ForgetPeer? && forall j :: f < j < |events| ==> !events[j].TrustPeer?
    requires NeedsPeer(event)
    ensures Refusal(Run(events), event).Some?
  {
    hide Run, Reached, TrustAsTold, OutputAsTold, FrameAsTold, Turns, OnlineBy;
    SucceedsExactly(events, event);
    assert !TrustedBy(events);
    NobodyTrusted(events);
  }

  lemma NobodyTrusted(events: seq<Event>)
    requires !TrustedBy(events)
    ensures !Reached(events, Requested) && !Reached(events, Granted) && !Reached(events, Started)
  {
    hide Run, Reached, TrustedBy, OutputAsTold, FrameAsTold;
    StateAsTold(events);
    EveryStateIsConsistent(events);
  }

  /** The events that bring any run to live output: trust, authenticate, ask, consent, start, show. */
  function Revival(g: u64, now: u64): seq<Event>
  {
    [Stop, TrustPeer, AuthenticateConnection, SetOutputReady, RequestStart, GrantConsent(now), CaptureStarted(g), AcceptFrame(g, now)]
  }

  lemma GoesOnline(all: seq<Event>, n: nat)
    requires n + 4 <= |all| && all[n..n + 4] == [Stop, TrustPeer, AuthenticateConnection, SetOutputReady]
    ensures At(all, n + 4) == Policy(Trusted, Online, Idle, ReadyNeutral, After(At(all, n), Stop).generation, None, None)
    ensures forall k :: n <= k < n + 4 ==> Takes(all, k)
  {
    hide At;
    assert all[n] == Stop && all[n + 1] == TrustPeer && all[n + 2] == AuthenticateConnection && all[n + 3] == SetOutputReady by {
      var next := all[n..n + 4];
      assert next[0] == all[n] && next[1] == all[n + 1] && next[2] == all[n + 2] && next[3] == all[n + 3];
    }
    AtNext(all, n);
    AtNext(all, n + 1);
    AtNext(all, n + 2);
    AtNext(all, n + 3);
  }

  lemma GoesLive(all: seq<Event>, n: nat, g: u64, now: u64)
    requires n + 4 <= |all| && all[n..n + 4] == [RequestStart, GrantConsent(now), CaptureStarted(g), AcceptFrame(g, now)]
    requires var p := At(all, n);
             p == Policy(Trusted, Online, Idle, ReadyNeutral, p.generation, None, None) && g == WrappingNext(p.generation)
    ensures At(all, n + 4) == Policy(Trusted, Online, Streaming, ReadyLive, g, Some(SaturatingAdd(now, 10_000)), Some(now))
    ensures forall k :: n <= k < n + 4 ==> Takes(all, k)
  {
    hide At;
    assert all[n] == RequestStart && all[n + 1] == GrantConsent(now) && all[n + 2] == CaptureStarted(g)
           && all[n + 3] == AcceptFrame(g, now) by {
      var next := all[n..n + 4];
      assert next[0] == all[n] && next[1] == all[n + 1] && next[2] == all[n + 2] && next[3] == all[n + 3];
    }
    AtNext(all, n);
    AtNext(all, n + 1);
    AtNext(all, n + 2);
    AtNext(all, n + 3);
  }

  /** From every reachable state those eight events all succeed, for the generation the consent returns. */
  lemma EveryRunCanGoLive(events: seq<Event>, now: u64) returns (g: u64)
    ensures var all := events + Revival(g, now);
            && (forall k :: |events| <= k < |all| ==> Takes(all, k))
            && Run(all) == Policy(Trusted, Online, Streaming, ReadyLive, g, Some(SaturatingAdd(now, 10_000)), Some(now))
  {
    var n := |events|;
    g := WrappingNext(After(Run(events), Stop).generation);
    var all := events + Revival(g, now);
    hide Run;
    EveryStateIsConsistent(events);
    assert all[..n] == events && all[..n + 8] == all;
    assert all[n..] == Revival(g, now);
    GoesOnline(all, n);
    GoesLive(all, n + 4, g, now);
  }
}
