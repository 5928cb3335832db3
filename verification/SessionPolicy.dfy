/** Capture authorization: trust, consent, lease, generation and frame staleness. */
module SessionPolicy {
  import opened Wrappers
  import opened Bytes

  const DEFAULT_CAPTURE_LEASE_MS: u64 := 10_000
  const MAX_FRAME_AGE_MS: u64 := 500

  datatype TrustState = Unpaired | Trusted | Revoked
  datatype ConnectionState = Offline | Online | Recovering
  datatype CaptureState = Idle | AwaitingConsent | Starting | Streaming | Stopping | CaptureFailed
  datatype OutputState = Missing | ReadyNeutral | ReadyLive | OutputFailed

  datatype PolicyError =
    | PeerNotTrusted | PeerOffline | CaptureBusy | ConsentNotPending
    | SessionNotStarting | SessionNotStreaming | StaleGeneration

  datatype Policy = Policy(
    trust: TrustState,
    connection: ConnectionState,
    capture: CaptureState,
    output: OutputState,
    generation: u64,
    leaseExpiresAtMs: Option<u64>,
    lastFrameAtMs: Option<u64>)

  const Default := Policy(Unpaired, Offline, Idle, Missing, 0, None, None)

  datatype SessionSnapshot = SessionSnapshot(
    trust: TrustState,
    connection: ConnectionState,
    capture: CaptureState,
    output: OutputState,
    generation: u64,
    captureArmed: bool)

  /** What the rest of the service sees of the policy. */
  function Snapshot(p: Policy): SessionSnapshot
  {
    SessionSnapshot(p.trust, p.connection, p.capture, p.output, p.generation, p.leaseExpiresAtMs.Some?)
  }

  function Neutral(output: OutputState): OutputState
  {
    if output.ReadyLive? then ReadyNeutral else output
  }

  function WrappingNext(generation: u64): u64
  {
    (generation + 1) % (U64_MAX + 1)
  }

  predicate HasSession(p: Policy)
  {
    !p.capture.Idle? || p.leaseExpiresAtMs.Some? || p.lastFrameAtMs.Some?
  }

  function Stopped(p: Policy): Policy
  {
    p.(generation := if HasSession(p) then WrappingNext(p.generation) else p.generation,
       capture := Idle, leaseExpiresAtMs := None, lastFrameAtMs := None, output := Neutral(p.output))
  }

  predicate LeaseExpired(p: Policy, nowMs: u64)
  {
    p.leaseExpiresAtMs.Some? && nowMs >= p.leaseExpiresAtMs.value
  }

  datatype Event =
    | SetOutputReady | SetOutputFailed | TrustPeer | AuthenticateConnection
    | RequestStart | GrantConsent(grantedAtMs: u64)
    | CaptureStarted(startedGeneration: u64)
    | RefreshLease(leaseGeneration: u64, refreshedAtMs: u64)
    | AcceptFrame(frameGeneration: u64, acceptedAtMs: u64)
    | ConnectionLost | Tick(nowMs: u64) | Stop | ForgetPeer

  /** Why an event is refused; None when it takes effect. */
  function Refusal(p: Policy, event: Event): Option<PolicyError>
  {
    match event
    case AuthenticateConnection =>
      if !p.trust.Trusted? then Some(PeerNotTrusted) else None
    case RequestStart =>
      if !p.trust.Trusted? then Some(PeerNotTrusted)
      else if !p.connection.Online? then Some(PeerOffline)
      else if !p.capture.Idle? then Some(CaptureBusy)
      else None
    case GrantConsent(_) =>
      if !p.capture.AwaitingConsent? then Some(ConsentNotPending)
      else if !p.trust.Trusted? then Some(PeerNotTrusted)
      else if !p.connection.Online? then Some(PeerOffline)
      else None
    case CaptureStarted(generation) =>
      if p.generation != generation then Some(StaleGeneration)
      else if !p.capture.Starting? then Some(SessionNotStarting)
      else None
    case RefreshLease(generation, _) =>
      if p.generation != generation then Some(StaleGeneration)
      else if !p.capture.Starting? && !p.capture.Streaming? then Some(SessionNotStreaming)
      else None
    case AcceptFrame(generation, _) =>
      if p.generation != generation then Some(StaleGeneration)
      else if !p.capture.Streaming? then Some(SessionNotStreaming)
      else None
    case _ => None
  }

  function After(p: Policy, event: Event): Policy
  {
    if Refusal(p, event).Some? then p
    else
      match event
      case SetOutputReady => p.(output := ReadyNeutral)
      case SetOutputFailed => p.(output := OutputFailed)
      case TrustPeer => p.(trust := Trusted)
      case AuthenticateConnection => p.(connection := Online)
      case RequestStart => p.(capture := AwaitingConsent)
      case GrantConsent(now) =>
        p.(generation := WrappingNext(p.generation), capture := Starting,
           leaseExpiresAtMs := Some(SaturatingAdd(now, DEFAULT_CAPTURE_LEASE_MS)),
           lastFrameAtMs := None, output := Neutral(p.output))
      case CaptureStarted(_) => p.(capture := Streaming)
      case RefreshLease(_, now) => p.(leaseExpiresAtMs := Some(SaturatingAdd(now, DEFAULT_CAPTURE_LEASE_MS)))
      case AcceptFrame(_, now) =>
        p.(lastFrameAtMs := Some(now), output := if p.output.ReadyNeutral? then ReadyLive else p.output)
      case ConnectionLost => p.(connection := Recovering, lastFrameAtMs := None, output := Neutral(p.output))
      case Tick(now) =>
        if LeaseExpired(p, now) then Stopped(p)
        else if p.lastFrameAtMs.Some? && SaturatingSub(now, p.lastFrameAtMs.value) >= MAX_FRAME_AGE_MS then
          p.(lastFrameAtMs := None, output := Neutral(p.output))
        else p
      case Stop => Stopped(p)
      case ForgetPeer => Stopped(p).(trust := Revoked, connection := Offline)
  }

  class SessionPolicy {
    var trust: TrustState
    var connection: ConnectionState
    var capture: CaptureState
    var output: OutputState
    var generation: u64
    var leaseExpiresAtMs: Option<u64>
    var lastFrameAtMs: Option<u64>

    function State(): Policy
      reads this
    {
      Policy(trust, connection, capture, output, generation, leaseExpiresAtMs, lastFrameAtMs)
    }

    constructor ()
      ensures State() == Default
    {
      trust, connection, capture, output := Unpaired, Offline, Idle, Missing;
      generation, leaseExpiresAtMs, lastFrameAtMs := 0, None, None;
    }

    method ForceNeutral()
      modifies this`output
      ensures output == Neutral(old(output))
    {
      if output.ReadyLive? {
        output := ReadyNeutral;
      }
    }

    method StopCapture()
      modifies this
      ensures State() == After(old(State()), Stop)
    {
      if !capture.Idle? || leaseExpiresAtMs.Some? || lastFrameAtMs.Some? {
        generation := WrappingNext(generation);
      }
      capture, leaseExpiresAtMs, lastFrameAtMs := Idle, None, None;
      ForceNeutral();
    }

    method Forget()
      modifies this
      ensures State() == After(old(State()), ForgetPeer)
    {
      StopCapture();
      trust, connection := Revoked, Offline;
    }

    method SetOutput(ready: bool)
      modifies this
      ensures State() == After(old(State()), if ready then SetOutputReady else SetOutputFailed)
    {
      output := if ready then ReadyNeutral else OutputFailed;
    }

    method Trust()
      modifies this
      ensures State() == After(old(State()), TrustPeer)
    {
      trust := Trusted;
    }

    method Authenticate() returns (r: Outcome<PolicyError>)
      modifies this
      ensures State() == After(old(State()), AuthenticateConnection)
      ensures r.Pass? <==> Refusal(old(State()), AuthenticateConnection).None?
      ensures r.Fail? ==> Refusal(old(State()), AuthenticateConnection) == Some(r.error)
    {
      if !trust.Trusted? {
        return Fail(PeerNotTrusted);
      }
      connection := Online;
      r := Pass;
    }

    method Request() returns (r: Outcome<PolicyError>)
      modifies this
      ensures State() == After(old(State()), RequestStart)
      ensures r.Pass? <==> Refusal(old(State()), RequestStart).None?
      ensures r.Fail? ==> Refusal(old(State()), RequestStart) == Some(r.error)
    {
      if !trust.Trusted? {
        return Fail(PeerNotTrusted);
      }
      if !connection.Online? {
        return Fail(PeerOffline);
      }
      if !capture.Idle? {
        return Fail(CaptureBusy);
      }
      capture := AwaitingConsent;
      r := Pass;
    }

    method Grant(now: u64) returns (r: Result<u64, PolicyError>)
      modifies this
      ensures State() == After(old(State()), GrantConsent(now))
      ensures r.Ok? <==> Refusal(old(State()), GrantConsent(now)).None?
      ensures r.Ok? ==> r.value == generation
      ensures r.Err? ==> Refusal(old(State()), GrantConsent(now)) == Some(r.error)
    {
      if !capture.AwaitingConsent? {
        return Err(ConsentNotPending);
      }
      if !trust.Trusted? {
        return Err(PeerNotTrusted);
      }
      if !connection.Online? {
        return Err(PeerOffline);
      }
      generation := WrappingNext(generation);
      capture := Starting;
      leaseExpiresAtMs := Some(SaturatingAdd(now, DEFAULT_CAPTURE_LEASE_MS));
      lastFrameAtMs := None;
      ForceNeutral();
      r := Ok(generation);
    }

    method Started(current: u64) returns (r: Outcome<PolicyError>)
      modifies this
      ensures State() == After(old(State()), CaptureStarted(current))
      ensures r.Pass? <==> Refusal(old(State()), CaptureStarted(current)).None?
      ensures r.Fail? ==> Refusal(old(State()), CaptureStarted(current)) == Some(r.error)
    {
      if generation != current {
        return Fail(StaleGeneration);
      }
      if !capture.Starting? {
        return Fail(SessionNotStarting);
      }
      capture := Streaming;
      r := Pass;
    }

    method Refresh(current: u64, now: u64) returns (r: Outcome<PolicyError>)
      modifies this
      ensures State() == After(old(State()), RefreshLease(current, now))
      ensures r.Pass? <==> Refusal(old(State()), RefreshLease(current, now)).None?
      ensures r.Fail? ==> Refusal(old(State()), RefreshLease(current, now)) == Some(r.error)
    {
      if generation != current {
        return Fail(StaleGeneration);
      }
      if !capture.Starting? && !capture.Streaming? {
        return Fail(SessionNotStreaming);
      }
      leaseExpiresAtMs := Some(SaturatingAdd(now, DEFAULT_CAPTURE_LEASE_MS));
      r := Pass;
    }

    method Accept(current: u64, now: u64) returns (r: Outcome<PolicyError>)
      modifies this
      ensures State() == After(old(State()), AcceptFrame(current, now))
      ensures r.Pass? <==> Refusal(old(State()), AcceptFrame(current, now)).None?
      ensures r.Fail? ==> Refusal(old(State()), AcceptFrame(current, now)) == Some(r.error)
    {
      if generation != current {
        return Fail(StaleGeneration);
      }
      if !capture.Streaming? {
        return Fail(SessionNotStreaming);
      }
      lastFrameAtMs := Some(now);
      if output.ReadyNeutral? {
        output := ReadyLive;
      }
      r := Pass;
    }

    method LoseConnection()
      modifies this
      ensures State() == After(old(State()), ConnectionLost)
    {
      connection, lastFrameAtMs := Recovering, None;
      ForceNeutral();
    }

    method TickAt(now: u64)
      modifies this
      ensures State() == After(old(State()), Tick(now))
    {
      if leaseExpiresAtMs.Some? && now >= leaseExpiresAtMs.value {
        StopCapture();
        return;
      }
      if lastFrameAtMs.Some? && SaturatingSub(now, lastFrameAtMs.value) >= MAX_FRAME_AGE_MS {
        lastFrameAtMs := None;
        ForceNeutral();
      }
    }
  }

  // ------------------------------------------------------------------- runs

  function Run(events: seq<Event>): Policy
  {
    if events == [] then Default else After(Run(events[..|events| - 1]), events[|events| - 1])
  }

  /** The state before event `i`. */
  function At(events: seq<Event>, i: nat): Policy
    requires i <= |events|
  {
    Run(events[..i])
  }

  predicate Takes(events: seq<Event>, i: nat)
    requires i < |events|
  {
    Refusal(At(events, i), events[i]).None?
  }

  lemma AtNext(events: seq<Event>, i: nat)
    requires i < |events|
    ensures At(events, i + 1) == After(At(events, i), events[i])
  {
    assert events[..i + 1][..i] == events[..i];
  }

  predicate Armed(p: Policy)
  {
    p.capture.Starting? || p.capture.Streaming?
  }

  predicate Invariant(p: Policy)
  {
    && (p.leaseExpiresAtMs.Some? <==> Armed(p))
    && (p.lastFrameAtMs.Some? ==> p.capture.Streaming?)
    && (!p.capture.Idle? ==> p.trust.Trusted?)
    && (p.output.ReadyLive? ==> p.capture.Streaming? && p.lastFrameAtMs.Some?)
    && !p.capture.Stopping? && !p.capture.CaptureFailed?
  }

  /** In particular, a snapshot says armed exactly when capture is starting or streaming. */
  lemma {:induction false} EveryStateIsConsistent(events: seq<Event>)
    ensures Invariant(Run(events))
    ensures Snapshot(Run(events)).captureArmed <==> Armed(Run(events))
  {
    if events != [] {
      EveryStateIsConsistent(events[..|events| - 1]);
    }
  }

  /** When the last accepted frame was accepted. */
  function LastFrame(events: seq<Event>): Option<u64>
  {
    if events == [] then None
    else
      var front, last := events[..|events| - 1], events[|events| - 1];
      if last.AcceptFrame? && Refusal(Run(front), last).None? then Some(last.acceptedAtMs) else LastFrame(front)
  }

  /** When the lease was last granted or refreshed. */
  function LastAuthorization(events: seq<Event>): Option<u64>
  {
    if events == [] then None
    else
      var front, last := events[..|events| - 1], events[|events| - 1];
      if Refusal(Run(front), last).Some? then LastAuthorization(front)
      else if last.GrantConsent? then Some(last.grantedAtMs)
      else if last.RefreshLease? then Some(last.refreshedAtMs)
      else LastAuthorization(front)
  }

  lemma {:induction false} TimesAreRemembered(events: seq<Event>)
    ensures var p := Run(events);
            && (p.lastFrameAtMs.Some? ==> p.lastFrameAtMs == LastFrame(events))
            && (p.leaseExpiresAtMs.Some? ==>
                  LastAuthorization(events).Some?
                  && p.leaseExpiresAtMs.value == SaturatingAdd(LastAuthorization(events).value, DEFAULT_CAPTURE_LEASE_MS))
  {
    if events != [] {
      TimesAreRemembered(events[..|events| - 1]);
    }
  }

  /** Right after a tick, live output is at most 500 ms old and an armed capture at most 10 s from its last authorization. */
  lemma TickBoundsStaleness(events: seq<Event>, nowMs: u64)
    ensures var all := events + [Tick(nowMs)];
            var p := Run(all);
            && (p.output.ReadyLive? ==> LastFrame(all).Some? && nowMs < LastFrame(all).value + MAX_FRAME_AGE_MS)
            && (Armed(p) ==> LastAuthorization(all).Some? && nowMs < LastAuthorization(all).value + DEFAULT_CAPTURE_LEASE_MS)
  {
    var all := events + [Tick(nowMs)];
    assert all[..|all| - 1] == events;
    EveryStateIsConsistent(events);
    TimesAreRemembered(events);
    EveryStateIsConsistent(all);
    TimesAreRemembered(all);
  }

  // -------------------------------------------------------------- authority

  /** Event `event` is a stop, a forget, or a tick that finds the lease expired in state `p`. */
  predicate EndsAt(p: Policy, event: Event)
  {
    event.Stop? || event.ForgetPeer? || (event.Tick? && LeaseExpired(p, event.nowMs))
  }

  predicate Ends(events: seq<Event>, i: nat)
    requires i < |events|
  {
    EndsAt(At(events, i), events[i])
  }

  predicate NoEnd(events: seq<Event>, from: nat, to: nat)
    requires to <= |events|
  {
    forall i :: from <= i < to ==> !Ends(events, i)
  }

  /** Event `h` is a request that took effect, still pending when event `i` comes. */
  predicate Requests(events: seq<Event>, h: nat, i: nat)
    requires h < i <= |events|
  {
    events[h].RequestStart? && Takes(events, h) && NoEnd(events, h + 1, i)
  }

  /** Event `i` is a consent that answered a pending request and returned `generation`. */
  predicate Grants(events: seq<Event>, i: nat, generation: u64)
    requires i < |events|
  {
    && events[i].GrantConsent? && Takes(events, i) && At(events, i + 1).generation == generation
    && exists h :: 0 <= h < i && Requests(events, h, i)
  }

  /** `generation` was granted and nothing has ended its session. */
  predicate Holds(events: seq<Event>, generation: u64)
  {
    exists i :: 0 <= i < |events| && Grants(events, i, generation) && NoEnd(events, i + 1, |events|)
  }

  lemma PrefixAgrees(events: seq<Event>, n: nat, i: nat)
    requires i <= n <= |events|
    ensures At(events[..n], i) == At(events, i)
    ensures i < n ==> (Ends(events[..n], i) <==> Ends(events, i)) && (Takes(events[..n], i) <==> Takes(events, i))
  {
    assert events[..n][..i] == events[..i];
  }

  /** A pending request is traced back to the request that made it. */
  lemma {:induction false} PendingWasRequested(events: seq<Event>) returns (h: nat)
    requires Run(events).capture.AwaitingConsent?
    ensures h < |events| && events[h].RequestStart? && Takes(events, h) && NoEnd(events, h + 1, |events|)
  {
    var n := |events| - 1;
    assert events != [];
    assert events[..|events|] == events;
    if events[n].RequestStart? && Takes(events, n) {
      h := n;
    } else {
      assert Run(events[..n]).capture.AwaitingConsent?;
      h := PendingWasRequested(events[..n]);
      forall i | h <= i < n ensures Ends(events[..n], i) <==> Ends(events, i) {
        PrefixAgrees(events, n, i);
      }
      PrefixAgrees(events, n, h);
      assert !Ends(events, n);
    }
  }

  lemma NoEndInPrefix(events: seq<Event>, n: nat, from: nat, to: nat)
    requires to <= n <= |events|
    ensures NoEnd(events[..n], from, to) <==> NoEnd(events, from, to)
  {
    hide Ends, Takes, At;
    forall k | from <= k < to ensures Ends(events[..n], k) <==> Ends(events, k) {
      PrefixAgrees(events, n, k);
    }
  }

  /** A step into an armed state is a consent that took effect, or no end of an armed state with the same generation. */
  lemma ArmedFrom(p: Policy, event: Event)
    requires Armed(After(p, event))
    ensures || (event.GrantConsent? && p.capture.AwaitingConsent? && Refusal(p, event).None?)
            || (Armed(p) && After(p, event).generation == p.generation && !EndsAt(p, event))
  {
  }

  /** An armed state is traced back to the consent that armed it. */
  lemma {:induction false} ArmedWasGranted(events: seq<Event>) returns (i: nat)
    requires Armed(Run(events))
    ensures i < |events| && Grants(events, i, Run(events).generation) && NoEnd(events, i + 1, |events|)
  {
    assert events != [];
    var n := |events| - 1;
    hide Armed, After, Refusal, EndsAt, Grants;
    assert events[..|events|] == events;
    ArmedFrom(Run(events[..n]), events[n]);
    if events[n].GrantConsent? && Takes(events, n) {
      i := n;
      LastGrants(events);
    } else {
      i := ArmedWasGranted(events[..n]);
      GrantsInPrefix(events, n, i, Run(events).generation);
      NoEndInPrefix(events, n, i + 1, n);
    }
  }

  lemma LastGrants(events: seq<Event>)
    requires events != []
    requires var n := |events| - 1; events[n].GrantConsent? && Takes(events, n)
    ensures Grants(events, |events| - 1, Run(events).generation)
  {
    hide Run, Ends, After;
    var n := |events| - 1;
    assert events[..|events|] == events;
    var h := PendingWasRequested(events[..n]);
    PrefixAgrees(events, n, h);
    NoEndInPrefix(events, n, h + 1, n);
    assert Requests(events, h, n);
  }

  lemma GrantsInPrefix(events: seq<Event>, n: nat, i: nat, generation: u64)
    requires i < n <= |events| && Grants(events[..n], i, generation)
    ensures Grants(events, i, generation)
  {
    hide At, Ends, NoEnd, Refusal;
    PrefixAgrees(events, n, i);
    PrefixAgrees(events, n, i + 1);
    var h :| 0 <= h < i && Requests(events[..n], h, i);
    PrefixAgrees(events, n, h);
    NoEndInPrefix(events, n, h + 1, i);
    assert Requests(events, h, i);
  }

  lemma ArmedStays(p: Policy, event: Event)
    requires Armed(p) && !EndsAt(p, event)
    ensures Armed(After(p, event)) && After(p, event).generation == p.generation
  {
  }

  lemma {:induction false} GrantStays(events: seq<Event>, i: nat, n: nat)
    requires i < n <= |events| && events[i].GrantConsent? && Takes(events, i) && NoEnd(events, i + 1, n)
    ensures Armed(At(events, n)) && At(events, n).generation == At(events, i + 1).generation
  {
    AtNext(events, n - 1);
    hide At;
    if i + 1 < n {
      GrantStays(events, i, n - 1);
      assert !Ends(events, n - 1);
      ArmedStays(At(events, n - 1), events[n - 1]);
    }
  }

  /**
   * The lease of generation g can be refreshed exactly when g was returned by a
   * consent that answered a pending request, with no stop, forget or lease
   * expiry since; capture can start once, and then deliver frames, only then.
   */
  lemma AuthorityExactly(events: seq<Event>, generation: u64, nowMs: u64)
    ensures Refusal(Run(events), RefreshLease(generation, nowMs)).None? <==> Holds(events, generation)
    ensures Refusal(Run(events), CaptureStarted(generation)).None? <==> Holds(events, generation) && Run(events).capture.Starting?
    ensures Refusal(Run(events), AcceptFrame(generation, nowMs)).None? <==> Holds(events, generation) && Run(events).capture.Streaming?
  {
    hide Run, Ends, After, Grants;
    if Armed(Run(events)) && Run(events).generation == generation {
      var i := ArmedWasGranted(events);
      assert Holds(events, generation);
    }
    if Holds(events, generation) {
      var i :| 0 <= i < |events| && Grants(events, i, generation) && NoEnd(events, i + 1, |events|);
      HoldingIsArmed(events, i, generation);
    }
  }

  lemma HoldingIsArmed(events: seq<Event>, i: nat, generation: u64)
    requires i < |events| && Grants(events, i, generation) && NoEnd(events, i + 1, |events|)
    ensures Armed(Run(events)) && Run(events).generation == generation
  {
    hide Run, Ends, After;
    assert events[..|events|] == events;
    GrantStays(events, i, |events|);
  }

  /** How often the generation changed. */
  function Changes(events: seq<Event>): nat
  {
    if events == [] then 0
    else
      var front := events[..|events| - 1];
      Changes(front) + if Run(events).generation != Run(front).generation then 1 else 0
  }

  lemma {:induction false} GenerationCounts(events: seq<Event>)
    ensures Run(events).generation == Changes(events) % (U64_MAX + 1)
  {
    if events != [] {
      var front := events[..|events| - 1];
      GenerationCounts(front);
      var before, after := Run(front).generation, Run(events).generation;
      assert after == before || after == WrappingNext(before);
      OneMore(Changes(front));
    }
  }

  lemma OneMore(n: nat)
    ensures (n + 1) % (U64_MAX + 1) == (n % (U64_MAX + 1) + 1) % (U64_MAX + 1)
  {
  }

  lemma {:induction false} ChangesGrow(events: seq<Event>, i: nat, n: nat)
    requires i <= n <= |events|
    ensures Changes(events[..i]) <= Changes(events[..n])
  {
    if i < n {
      ChangesGrow(events, i, n - 1);
      assert events[..n][..n - 1] == events[..n - 1];
    }
  }

  lemma EndChanges(p: Policy, event: Event)
    requires Armed(p) && EndsAt(p, event)
    ensures After(p, event).generation == WrappingNext(p.generation) != p.generation
  {
  }

  /** A granted generation that is ended has been followed by at least one change. */
  lemma {:induction false} EndingChanges(events: seq<Event>, i: nat, j: nat)
    requires i < j < |events| && events[i].GrantConsent? && Takes(events, i) && Ends(events, j)
    ensures Changes(events[..i + 1]) < Changes(events[..j + 1])
  {
    hide After, EndsAt, WrappingNext;
    if NoEnd(events, i + 1, j) {
      GrantStays(events, i, j);
      EndChanges(At(events, j), events[j]);
      AtNext(events, j);
      ChangesGrow(events, i + 1, j);
      assert events[..j + 1][..j] == events[..j];
    } else {
      hide Run, Changes;
      var k :| i + 1 <= k < j && Ends(events, k);
      EndingChanges(events, i, k);
      ChangesGrow(events, k + 1, j + 1);
    }
  }

  /** Nothing succeeds under `generation` in this state. */
  predicate Dead(p: Policy, generation: u64)
  {
    && (forall now :: Refusal(p, RefreshLease(generation, now)).Some?)
    && (forall now :: Refusal(p, AcceptFrame(generation, now)).Some?)
    && Refusal(p, CaptureStarted(generation)).Some?
  }

  /**
   * A generation ended once stays dead, as long as fewer than 2^64 generation
   * changes have happened since it was granted.
   */
  lemma EndedGenerationsStayDead(events: seq<Event>, i: nat, j: nat)
    requires i < j < |events| && events[i].GrantConsent? && Takes(events, i) && Ends(events, j)
    requires Changes(events) - Changes(events[..i + 1]) <= U64_MAX
    ensures Dead(Run(events), At(events, i + 1).generation)
  {
    hide Run, Changes, After, EndsAt;
    EndingChanges(events, i, j);
    ChangesGrow(events, j + 1, |events|);
    assert events[..|events|] == events;
    GenerationCounts(events);
    GenerationCounts(events[..i + 1]);
    DifferentResidues(Changes(events[..i + 1]), Changes(events));
  }

  lemma DifferentResidues(x: nat, y: nat)
    requires x < y <= x + U64_MAX
    ensures x % (U64_MAX + 1) != y % (U64_MAX + 1)
  {
    var m := U64_MAX + 1;
    assert y - x == m * (y / m - x / m) + (y % m - x % m);
    NoMultipleBetween(m, y / m - x / m, y - x);
  }

  lemma NoMultipleBetween(m: nat, k: int, d: int)
    requires 0 < d < m
    ensures d != m * k
  {
    if k >= 1 {
      assert m * k >= m;
    } else {
      assert m * k <= 0;
    }
  }

  /** Trust, go online, then `n` times request, consent and stop. */
  function Cycles(n: nat): (r: seq<Event>)
    ensures |r| == 3 * n + 2
  {
    if n == 0 then [TrustPeer, AuthenticateConnection]
    else Cycles(n - 1) + [RequestStart, GrantConsent(0), Stop]
  }

  lemma OneMoreEvent(events: seq<Event>, event: Event)
    ensures Run(events + [event]) == After(Run(events), event)
    ensures Changes(events + [event]) ==
            Changes(events) + if After(Run(events), event).generation != Run(events).generation then 1 else 0
  {
    assert (events + [event])[..|events|] == events;
  }

  /** An idle trusted peer that is online, at generation `g`. */
  function Rested(g: u64): Policy
  {
    Policy(Trusted, Online, Idle, Missing, g, None, None)
  }

  function Granted(g: u64): Policy
  {
    Policy(Trusted, Online, Starting, Missing, g, Some(DEFAULT_CAPTURE_LEASE_MS), None)
  }

  lemma GrantFromRest(events: seq<Event>, g: u64)
    requires Run(events) == Rested(g)
    ensures var all := events + [RequestStart, GrantConsent(0)];
            && Run(all) == Granted(WrappingNext(g)) && Changes(all) == Changes(events) + 1
            && Takes(all, |events| + 1)
  {
    hide Run, Changes;
    var asked := events + [RequestStart];
    OneMoreEvent(events, RequestStart);
    OneMoreEvent(asked, GrantConsent(0));
    var all := events + [RequestStart, GrantConsent(0)];
    assert asked + [GrantConsent(0)] == all;
    assert all[..|events| + 1] == asked;
  }

  lemma CycleFromRest(events: seq<Event>, g: u64)
    requires Run(events) == Rested(g)
    ensures var all := events + [RequestStart, GrantConsent(0), Stop];
            Run(all) == Rested(WrappingNext(WrappingNext(g))) && Changes(all) == Changes(events) + 2
  {
    hide Run, Changes;
    GrantFromRest(events, g);
    var granted := events + [RequestStart, GrantConsent(0)];
    OneMoreEvent(granted, Stop);
    assert granted + [Stop] == events + [RequestStart, GrantConsent(0), Stop];
  }

  /** The generation after `n` cycles. */
  function Cycled(n: nat): u64
  {
    if n == 0 then 0 else WrappingNext(WrappingNext(Cycled(n - 1)))
  }

  lemma {:induction false} CyclesWrap(n: nat)
    ensures Cycled(n) == (2 * n) % (U64_MAX + 1)
  {
    if n > 0 {
      CyclesWrap(n - 1);
      OneMore(2 * (n - 1));
      OneMore(2 * n - 1);
    }
  }

  lemma {:induction false} AfterCycles(n: nat)
    ensures Run(Cycles(n)) == Rested(Cycled(n))
    ensures Changes(Cycles(n)) == 2 * n
  {
    if n == 0 {
      AfterNoCycles();
    } else {
      hide Run, Changes, WrappingNext, Rested;
      AfterCycles(n - 1);
      CycleFromRest(Cycles(n - 1), Cycled(n - 1));
    }
  }

  lemma AfterNoCycles()
    ensures Run(Cycles(0)) == Rested(0) && Changes(Cycles(0)) == 0
  {
    OneMoreEvent([], TrustPeer);
    OneMoreEvent([TrustPeer], AuthenticateConnection);
    assert [] + [TrustPeer] == [TrustPeer];
    assert [TrustPeer] + [AuthenticateConnection] == Cycles(0);
  }

  /** The bound is tight: 2^64 changes after it was granted, a stopped generation can be in force again. */
  lemma GenerationsComeBack()
    ensures var events := Cycles(U64_MAX / 2 + 1) + [RequestStart, GrantConsent(0)];
            && events[3].GrantConsent? && Takes(events, 3) && Ends(events, 4)
            && Changes(events) - Changes(events[..4]) == U64_MAX + 1
            && Refusal(Run(events), RefreshLease(At(events, 4).generation, 0)).None?
  {
    hide Run, Changes, Cycles;
    var n := U64_MAX / 2 + 1;
    var cycles := Cycles(n);
    var events := cycles + [RequestStart, GrantConsent(0)];
    AfterCycles(n);
    CyclesWrap(n);
    GrantFromRest(cycles, 0);
    CyclesStart(n);
    AfterNoCycles();
    GrantFromRest(Cycles(0), 0);
    var first := Cycles(0) + [RequestStart, GrantConsent(0)];
    assert cycles[..5] == first + [Stop];
    assert events[..4] == first;
    assert events[..3] == first[..3];
    assert events[3] == first[3] && events[4] == Stop;
  }

  lemma {:induction false} CyclesStart(n: nat)
    requires n >= 1
    ensures Cycles(n)[..5] == Cycles(0) + [RequestStart, GrantConsent(0), Stop]
  {
    if n > 1 {
      CyclesStart(n - 1);
      assert Cycles(n)[..5] == Cycles(n - 1)[..5];
    }
  }
}
