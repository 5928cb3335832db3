/**
 * The browser media path: a bounded channel that is emptied when it is full,
 * and frames that are held back until the next keyframe.
 */
module Rtc {
  import opened Wrappers
  import opened Bytes

  const MEDIA_QUEUE_CAPACITY := 2

  /** A frame and its position among all media events. */
  datatype Frame = Frame(index: nat, key: bool)

  datatype Sender = Sender(waitingKeyframe: bool, channel: seq<Frame>, droppedFrames: u64)

  /** A media event without a usable frame, or with one. */
  datatype MediaData =
    | Discontiguous
    | Contiguous(key: bool)

  function Dropping(s: Sender, count: nat): (r: Sender)
    ensures r.channel == s.channel && r.waitingKeyframe == s.waitingKeyframe
  {
    s.(droppedFrames := if s.droppedFrames + count <= U64_MAX then s.droppedFrames + count else U64_MAX)
  }

  /** `send_fresh` up to the point where a full channel has to be emptied. */
  datatype Attempt =
    | Settled(sender: Sender)
    | MustEvict(sender: Sender)

  function TrySend(s: Sender, frame: Frame): Attempt
  {
    if s.waitingKeyframe && !frame.key then Settled(Dropping(s, 1))
    else
      var willing := s.(waitingKeyframe := s.waitingKeyframe && !frame.key);
      if |s.channel| < MEDIA_QUEUE_CAPACITY then Settled(willing.(channel := s.channel + [frame]))
      else MustEvict(willing)
  }

  /** The rest of `send_fresh`, once `evicted` frames were taken out and the channel is empty. */
  function AfterEviction(s: Sender, frame: Frame, evicted: nat): Sender
  {
    var emptied := Dropping(s, evicted).(channel := []);
    if frame.key then emptied.(channel := [frame], waitingKeyframe := false)
    else Dropping(emptied, 1).(waitingKeyframe := true)
  }

  function SendFresh(s: Sender, frame: Frame): Sender
  {
    match TrySend(s, frame)
    case Settled(sender) => sender
    case MustEvict(sender) => AfterEviction(sender, frame, |s.channel|)
  }

  class FreshSender {
    var waitingKeyframe: bool
    var channel: seq<Frame>
    var droppedFrames: u64

    function State(): Sender
      reads this
    {
      Sender(waitingKeyframe, channel, droppedFrames)
    }

    constructor ()
      ensures State() == Sender(true, [], 0)
    {
      waitingKeyframe, channel, droppedFrames := true, [], 0;
    }

    method ObserveDropped(count: nat)
      modifies this`droppedFrames
      ensures State() == Dropping(old(State()), count)
    {
      droppedFrames := if droppedFrames + count <= U64_MAX then droppedFrames + count else U64_MAX;
    }

    method Send(frame: Frame)
      modifies this
      ensures State() == SendFresh(old(State()), frame)
    {
      if waitingKeyframe && !frame.key {
        ObserveDropped(1);
        return;
      }
      if frame.key {
        waitingKeyframe := false;
      }
      if |channel| < MEDIA_QUEUE_CAPACITY {
        channel := channel + [frame];
        return;
      }
      var evicted := 0;
      while channel != []
        invariant evicted + |channel| == |old(channel)| && droppedFrames == old(droppedFrames)
        decreases |channel|
      {
        channel := channel[1..];
        evicted := evicted + 1;
      }
      ObserveDropped(evicted);
      waitingKeyframe := true;
      if frame.key {
        channel := channel + [frame];
        waitingKeyframe := false;
      } else {
        ObserveDropped(1);
      }
    }
  }

  // ------------------------------------------------------------------- runs

  /** The producer is between events, or emptying the channel for `frame`. */
  datatype Producer =
    | Idle
    | Evicting(frame: Frame, evicted: nat)

  /** `lost` counts every frame given up; `broken` says a frame was delivered out of its chain. */
  datatype System = System(
    sender: Sender,
    producer: Producer,
    events: nat,
    lost: nat,
    delivered: seq<Frame>,
    broken: bool)

  const Begin := System(Sender(true, [], 0), Idle, 0, 0, [], false)

  datatype Step =
    | Arrives(data: MediaData)
    | EvictsOne
    | FinishesEviction
    | ConsumerReceives

  /** One frame is taken from under a running eviction that has already removed its predecessor. */
  predicate TakesOrphan(s: System)
  {
    s.producer.Evicting? && s.producer.evicted > 0 && s.sender.channel != [] && !s.sender.channel[0].key
  }

  function Next(s: System, step: Step): Option<System>
  {
    match step
    case Arrives(data) =>
      if !s.producer.Idle? then None
      else
        (match data
         case Discontiguous =>
           Some(s.(sender := Dropping(s.sender, 1).(waitingKeyframe := true), events := s.events + 1, lost := s.lost + 1))
         case Contiguous(key) =>
           var frame := Frame(s.events, key);
           var next := s.(events := s.events + 1);
           match TrySend(s.sender, frame)
           case MustEvict(sender) => Some(next.(sender := sender, producer := Evicting(frame, 0)))
           case Settled(sender) =>
             Some(next.(sender := sender, lost := s.lost + if s.sender.waitingKeyframe && !key then 1 else 0)))
    case EvictsOne =>
      if s.producer.Evicting? && s.sender.channel != [] then
        Some(s.(sender := s.sender.(channel := s.sender.channel[1..]), producer := Evicting(s.producer.frame, s.producer.evicted + 1)))
      else None
    case FinishesEviction =>
      if s.producer.Evicting? && s.sender.channel == [] then
        Some(s.(sender := AfterEviction(s.sender, s.producer.frame, s.producer.evicted), producer := Idle,
                lost := s.lost + s.producer.evicted + if s.producer.frame.key then 0 else 1))
      else None
    case ConsumerReceives =>
      if s.sender.channel != [] then
        Some(s.(sender := s.sender.(channel := s.sender.channel[1..]), delivered := s.delivered + [s.sender.channel[0]],
                broken := s.broken || TakesOrphan(s)))
      else None
  }

  function Run(steps: seq<Step>): Option<System>
  {
    if steps == [] then Some(Begin)
    else
      match Run(steps[..|steps| - 1])
      case None => None
      case Some(s) => Next(s, steps[|steps| - 1])
  }

  /** The decoder can follow: a keyframe first, and nothing between a frame and its predecessor. */
  predicate Chained(frames: seq<Frame>)
  {
    && (frames != [] ==> frames[0].key)
    && forall i :: 0 < i < |frames| && !frames[i].key ==> frames[i - 1].index + 1 == frames[i].index
  }

  predicate Increasing(frames: seq<Frame>)
  {
    forall i, j :: 0 <= i < j < |frames| ==> frames[i].index < frames[j].index
  }

  /** Everything that arrived was delivered, is waiting, was counted, or is in the producer's hands. */
  predicate Conserved(s: System)
  {
    && s.events == |s.delivered| + |s.sender.channel| + s.lost
                   + (match s.producer case Idle => 0 case Evicting(_, evicted) => evicted + 1)
    && s.sender.droppedFrames == (if s.lost <= U64_MAX then s.lost else U64_MAX)
    && |s.sender.channel| + (if s.producer.Evicting? then s.producer.evicted else 0) <= MEDIA_QUEUE_CAPACITY
  }

  predicate Ordered(s: System)
  {
    && Increasing(s.delivered + s.sender.channel)
    && (forall f :: f in s.delivered + s.sender.channel ==> f.index < s.events)
    && (s.producer.Evicting? ==>
          && s.producer.frame.index == s.events - 1
          && forall f :: f in s.delivered + s.sender.channel ==> f.index < s.producer.frame.index)
  }

  /** Sound as long as no orphan was taken; the chain is cut exactly when one was. */
  predicate ChainKept(s: System)
  {
    var all := s.delivered + s.sender.channel;
    && (!s.broken ==> Chained(s.delivered))
    && (s.broken ==> !Chained(s.delivered))
    && (!s.broken && (s.producer.Idle? || s.producer.evicted == 0) ==> Chained(all))
    && (s.producer.Idle? && !s.sender.waitingKeyframe ==> all != [] && all[|all| - 1].index == s.events - 1)
    && (s.producer.Evicting? && s.producer.evicted == 0 && !s.producer.frame.key ==> !s.sender.waitingKeyframe)
    && (s.producer.Evicting? && s.producer.evicted > 0 && s.sender.channel != [] && s.delivered != [] ==>
          s.delivered[|s.delivered| - 1].index + 1 < s.sender.channel[0].index)
  }

  lemma StepConserves(s: System, step: Step)
    requires Conserved(s) && Next(s, step).Some?
    ensures Conserved(Next(s, step).value)
  {
  }

  /** Taking or dropping the oldest waiting frame keeps the order of the rest. */
  lemma RemovingOrders(s: System, step: Step)
    requires Ordered(s) && Next(s, step).Some? && (step.ConsumerReceives? || step.EvictsOne?)
    ensures Ordered(Next(s, step).value)
  {
    var next := Next(s, step).value;
    var before, after := s.delivered + s.sender.channel, next.delivered + next.sender.channel;
    if step.ConsumerReceives? {
      assert after == before;
    } else {
      assert forall i :: 0 <= i < |after| ==> after[i] == before[if i < |s.delivered| then i else i + 1];
    }
  }

  lemma FinishingOrders(s: System)
    requires Ordered(s) && Next(s, FinishesEviction).Some?
    ensures Ordered(Next(s, FinishesEviction).value)
  {
    hide Dropping;
    var next := Next(s, FinishesEviction).value;
    var before, after := s.delivered + s.sender.channel, next.delivered + next.sender.channel;
    assert before == s.delivered;
    assert after == before || after == before + [s.producer.frame];
  }

  /** An arrival waits at the end of the channel, or leaves the channel as it is. */
  lemma ArrivalAppends(s: System, data: MediaData)
    requires Next(s, Arrives(data)).Some?
    ensures var next := Next(s, Arrives(data)).value;
            && next.delivered == s.delivered && next.events == s.events + 1 && next.broken == s.broken
            && (|| (next.sender.channel == s.sender.channel
                    && (next.producer.Idle? ==> next.sender.waitingKeyframe)
                    && (next.producer.Evicting? ==>
                          && data.Contiguous? && next.producer == Evicting(Frame(s.events, data.key), 0)
                          && (!data.key ==> !s.sender.waitingKeyframe && !next.sender.waitingKeyframe)))
                || (data.Contiguous? && next.producer.Idle? && (s.sender.waitingKeyframe ==> data.key)
                    && next.sender.channel == s.sender.channel + [Frame(s.events, data.key)]))
  {
  }

  lemma ArrivalOrders(s: System, data: MediaData)
    requires Ordered(s) && Next(s, Arrives(data)).Some?
    ensures Ordered(Next(s, Arrives(data)).value)
  {
    ArrivalAppends(s, data);
    assert s.producer.Idle?;
    hide Next;
    var next := Next(s, Arrives(data)).value;
    var before, after := s.delivered + s.sender.channel, next.delivered + next.sender.channel;
    if next.sender.channel != s.sender.channel {
      assert after == before + [Frame(s.events, data.key)];
    }
  }

  lemma StepOrders(s: System, step: Step)
    requires Ordered(s) && Next(s, step).Some?
    ensures Ordered(Next(s, step).value)
  {
    hide *;
    match step
    case Arrives(data) => ArrivalOrders(s, data);
    case FinishesEviction => FinishingOrders(s);
    case _ => RemovingOrders(s, step);
  }

  lemma ArrivalKeepsChain(s: System, data: MediaData)
    requires Ordered(s) && ChainKept(s) && Next(s, Arrives(data)).Some?
    ensures ChainKept(Next(s, Arrives(data)).value)
  {
    ArrivalAppends(s, data);
    assert s.producer.Idle?;
    hide Next, Ordered;
    var next := Next(s, Arrives(data)).value;
    var before, after := s.delivered + s.sender.channel, next.delivered + next.sender.channel;
    if next.sender.channel != s.sender.channel {
      assert after == before + [Frame(s.events, data.key)];
    }
  }

  lemma EvictingKeepsChain(s: System)
    requires Ordered(s) && Conserved(s) && ChainKept(s) && Next(s, EvictsOne).Some?
    ensures ChainKept(Next(s, EvictsOne).value)
  {
    hide Dropping;
    hide Conserved;
    var next := Next(s, EvictsOne).value;
    var before, n := s.delivered + s.sender.channel, |s.delivered|;
    if next.sender.channel != [] && n > 0 {
      assert before[n - 1] == s.delivered[n - 1] && before[n] == s.sender.channel[0] && before[n + 1] == next.sender.channel[0];
    }
    if s.producer.evicted == 0 {
      assert forall i :: 0 <= i < n ==> before[i] == s.delivered[i];
    }
  }

  lemma FinishingKeepsChain(s: System)
    requires Ordered(s) && ChainKept(s) && Next(s, FinishesEviction).Some?
    ensures ChainKept(Next(s, FinishesEviction).value)
  {
    hide Dropping;
    var next := Next(s, FinishesEviction).value;
    var before, after := s.delivered + s.sender.channel, next.delivered + next.sender.channel;
    assert before == s.delivered;
    assert after == if s.producer.frame.key then before + [s.producer.frame] else before;
  }

  lemma ReceivingKeepsChain(s: System)
    requires Conserved(s) && ChainKept(s) && Next(s, ConsumerReceives).Some?
    ensures ChainKept(Next(s, ConsumerReceives).value)
  {
    var next := Next(s, ConsumerReceives).value;
    var before, after := s.delivered + s.sender.channel, next.delivered + next.sender.channel;
    assert after == before;
    var n := |s.delivered|;
    assert next.delivered[..n] == s.delivered;
    if s.broken {
      assert !Chained(next.delivered) by { BrokenStays(s.delivered, s.sender.channel[0]); }
    } else if TakesOrphan(s) {
      assert next.delivered[n] == s.sender.channel[0];
    } else {
      assert forall i :: 0 <= i <= n ==> next.delivered[i] == before[i];
    }
  }

  lemma BrokenStays(frames: seq<Frame>, frame: Frame)
    requires !Chained(frames)
    ensures !Chained(frames + [frame])
  {
    var longer := frames + [frame];
    assert forall i :: 0 <= i < |frames| ==> longer[i] == frames[i];
  }

  lemma {:induction false} RunsKeep(steps: seq<Step>)
    requires Run(steps).Some?
    ensures var s := Run(steps).value; Conserved(s) && Ordered(s) && ChainKept(s)
  {
    hide Next;
    if steps == [] {
      assert Begin.delivered + Begin.sender.channel == [];
    } else {
      hide Conserved;
      hide Ordered;
      hide ChainKept;
      var front, step := steps[..|steps| - 1], steps[|steps| - 1];
      RunsKeep(front);
      var s := Run(front).value;
      StepConserves(s, step);
      StepOrders(s, step);
      match step
      case Arrives(data) => ArrivalKeepsChain(s, data);
      case EvictsOne => EvictingKeepsChain(s);
      case FinishesEviction => FinishingKeepsChain(s);
      case ConsumerReceives => ReceivingKeepsChain(s);
    }
  }

  /** The consumer never takes a frame while the channel is being emptied under it. */
  predicate SendsAreAtomic(steps: seq<Step>)
  {
    forall i :: 0 <= i < |steps| && steps[i].ConsumerReceives? && Run(steps[..i]).Some? ==>
      Run(steps[..i]).value.producer.Idle?
  }

  /** Step `i` is a receive that takes an orphan. */
  predicate TakesOrphanAt(steps: seq<Step>, i: nat)
    requires i < |steps|
  {
    steps[i].ConsumerReceives? && Run(steps[..i]).Some? && TakesOrphan(Run(steps[..i]).value)
  }

  /** At some point the consumer took an orphan. */
  predicate OrphanTaken(steps: seq<Step>)
  {
    exists i :: 0 <= i < |steps| && TakesOrphanAt(steps, i)
  }

  lemma OrphansSoFar(steps: seq<Step>)
    requires steps != []
    ensures var n := |steps| - 1; OrphanTaken(steps) <==> OrphanTaken(steps[..n]) || TakesOrphanAt(steps, n)
  {
    hide Run;
    hide TakesOrphan;
    var n := |steps| - 1;
    forall i | 0 <= i < n ensures TakesOrphanAt(steps[..n], i) <==> TakesOrphanAt(steps, i) {
      assert steps[..n][..i] == steps[..i];
    }
  }

  lemma {:induction false} BrokenMeansOrphan(steps: seq<Step>)
    requires Run(steps).Some?
    ensures Run(steps).value.broken <==> OrphanTaken(steps)
  {
    hide TakesOrphan;
    if steps != [] {
      hide OrphanTaken;
      BrokenMeansOrphan(steps[..|steps| - 1]);
      OrphansSoFar(steps);
    }
  }

  /**
   * In every interleaving: events are conserved, delivery is in source order,
   * and the delivered stream is decodable exactly when no frame was taken from
   * under an eviction that had already removed its predecessor.
   */
  lemma DeliveryChainsExactly(steps: seq<Step>)
    requires Run(steps).Some?
    ensures var s := Run(steps).value;
            && Conserved(s)
            && Increasing(s.delivered)
            && (Chained(s.delivered) <==> !OrphanTaken(steps))
  {
    hide OrphanTaken;
    hide Run;
    RunsKeep(steps);
    BrokenMeansOrphan(steps);
    var s := Run(steps).value;
    assert forall i :: 0 <= i < |s.delivered| ==> (s.delivered + s.sender.channel)[i] == s.delivered[i];
  }

  /** Taking `send_fresh` as one step of the producer, the delivered stream is always decodable. */
  lemma AtomicSendsChain(steps: seq<Step>)
    requires Run(steps).Some? && SendsAreAtomic(steps)
    ensures Chained(Run(steps).value.delivered)
  {
    DeliveryChainsExactly(steps);
  }

  /** A keyframe was consumed and its two successors wait. */
  lemma TwoSuccessorsWait() returns (steps: seq<Step>, s: System)
    ensures steps == [Arrives(Contiguous(true)), ConsumerReceives, Arrives(Contiguous(false)), Arrives(Contiguous(false))]
    ensures Run(steps) == Some(s)
    ensures s.producer.Idle? && !s.sender.waitingKeyframe && s.events == 3
    ensures s.delivered == [Frame(0, true)] && s.sender.channel == [Frame(1, false), Frame(2, false)]
  {
    hide Run;
    hide Dropping;
    NoSteps();
    steps, s := Extend([], Begin, Arrives(Contiguous(true)));
    assert s.sender.channel == [Frame(0, true)];
    steps, s := Extend(steps, s, ConsumerReceives);
    assert s.sender.channel == [];
    steps, s := Extend(steps, s, Arrives(Contiguous(false)));
    steps, s := Extend(steps, s, Arrives(Contiguous(false)));
  }

  /** Without atomicity it need not be: the consumer takes the second of two frames being evicted. */
  lemma InterleavedEvictionBreaksChain()
    ensures var steps := [Arrives(Contiguous(true)), ConsumerReceives,
                          Arrives(Contiguous(false)), Arrives(Contiguous(false)), Arrives(Contiguous(false)),
                          EvictsOne, ConsumerReceives];
            Run(steps).Some? && !Chained(Run(steps).value.delivered)
  {
    hide Run;
    hide Dropping;
    var steps, s := TwoSuccessorsWait();
    steps, s := Extend(steps, s, Arrives(Contiguous(false)));
    steps, s := Extend(steps, s, EvictsOne);
    assert s.sender.channel == [Frame(2, false)];
    steps, s := Extend(steps, s, ConsumerReceives);
    assert s.delivered[0] == Frame(0, true) && s.delivered[1] == Frame(2, false);
    assert steps == [Arrives(Contiguous(true)), ConsumerReceives,
                     Arrives(Contiguous(false)), Arrives(Contiguous(false)), Arrives(Contiguous(false)),
                     EvictsOne, ConsumerReceives];
  }

  lemma NoSteps()
    ensures Run([]) == Some(Begin)
  {
  }

  lemma Extend(steps: seq<Step>, before: System, step: Step) returns (longer: seq<Step>, after: System)
    requires Run(steps) == Some(before) && Next(before, step).Some?
    ensures Next(before, step) == Some(after)
    ensures longer == steps + [step] && Run(longer) == Some(after)
  {
    hide Next;
    longer := steps + [step];
    assert longer[..|steps|] == steps;
    after := Next(before, step).value;
  }


  // --------------------------------------------------------- what is kept

  /** The newest frame that was not given up is the one of the last event. */
  predicate UpToDate(s: System)
  {
    var kept := s.delivered + s.sender.channel;
    kept != [] && kept[|kept| - 1].index + 1 == s.events
  }

  /** Between events the sender waits for a keyframe exactly when it has given up the last one. */
  predicate WaitsRight(s: System)
  {
    s.producer.Idle? ==> (s.sender.waitingKeyframe <==> !UpToDate(s))
  }

  /**
   * One step, told by the frames that were kept: a frame is wanted when it is a
   * keyframe or follows the newest kept one; it joins the channel if there is
   * room, and otherwise the channel is emptied first, after which a keyframe
   * waits alone and any other frame is given up with the rest.
   */
  predicate StepsRight(s: System, step: Step, next: System)
  {
    match step
    case Arrives(data) =>
      && s.producer.Idle? && next.events == s.events + 1 && next.delivered == s.delivered
      && if data.Contiguous? && (data.key || UpToDate(s)) then
           if |s.sender.channel| < 2 then
             next.sender.channel == s.sender.channel + [Frame(s.events, data.key)] && next.lost == s.lost && next.producer.Idle?
           else
             next.sender.channel == s.sender.channel && next.lost == s.lost
             && next.producer == Evicting(Frame(s.events, data.key), 0)
         else
           next.sender.channel == s.sender.channel && next.lost == s.lost + 1 && next.producer.Idle?
    case EvictsOne =>
      && s.producer.Evicting? && s.sender.channel != [] && next.sender.channel == s.sender.channel[1..]
      && next.producer == Evicting(s.producer.frame, s.producer.evicted + 1)
      && next.delivered == s.delivered && next.events == s.events && next.lost == s.lost
    case FinishesEviction =>
      && s.producer.Evicting? && s.sender.channel == [] && next.producer.Idle?
      && next.delivered == s.delivered && next.events == s.events
      && next.sender.channel == (if s.producer.frame.key then [s.producer.frame] else [])
      && next.lost == s.lost + s.producer.evicted + (if s.producer.frame.key then 0 else 1)
    case ConsumerReceives =>
      && s.sender.channel != [] && next.delivered + next.sender.channel == s.delivered + s.sender.channel
      && |next.sender.channel| == |s.sender.channel| - 1
      && next.producer == s.producer && next.events == s.events && next.lost == s.lost
  }

  /** Which steps are possible. */
  predicate CanStep(s: System, step: Step)
  {
    match step
    case Arrives(_) => s.producer.Idle?
    case EvictsOne => s.producer.Evicting? && s.sender.channel != []
    case FinishesEviction => s.producer.Evicting? && s.sender.channel == []
    case ConsumerReceives => s.sender.channel != []
  }

  lemma ArrivingIsRight(s: System, data: MediaData)
    requires WaitsRight(s) && Ordered(s) && s.producer.Idle?
    ensures Next(s, Arrives(data)).Some?
    ensures WaitsRight(Next(s, Arrives(data)).value) && StepsRight(s, Arrives(data), Next(s, Arrives(data)).value)
  {
    hide Increasing, Dropping;
    var next := Next(s, Arrives(data)).value;
    var kept := s.delivered + s.sender.channel;
    assert kept != [] ==> kept[|kept| - 1] in kept;
    if next.sender.channel != s.sender.channel {
      assert next.delivered + next.sender.channel == kept + [Frame(s.events, data.key)];
    }
  }

  lemma OtherStepsAreRight(s: System, step: Step)
    requires WaitsRight(s) && Ordered(s) && !step.Arrives? && CanStep(s, step)
    ensures Next(s, step).Some?
    ensures WaitsRight(Next(s, step).value) && StepsRight(s, step, Next(s, step).value)
  {
    hide Increasing;
    var next := Next(s, step).value;
    var kept := s.delivered + s.sender.channel;
    assert kept != [] ==> kept[|kept| - 1] in kept;
    if step.ConsumerReceives? {
      assert next.delivered + next.sender.channel == kept;
    } else if step.FinishesEviction? {
      assert kept == s.delivered;
      assert next.delivered + next.sender.channel == if s.producer.frame.key then kept + [s.producer.frame] else kept;
    }
  }

  lemma {:induction false} WaitingIsRight(steps: seq<Step>)
    requires Run(steps).Some?
    ensures WaitsRight(Run(steps).value)
  {
    if steps != [] {
      hide Next, WaitsRight, StepsRight, Conserved, Ordered, ChainKept;
      var front, step := steps[..|steps| - 1], steps[|steps| - 1];
      var s := Run(front).value;
      WaitingIsRight(front);
      RunsKeep(front);
      OnlyPossible(s, step);
      if step.Arrives? {
        ArrivingIsRight(s, step.data);
      } else {
        OtherStepsAreRight(s, step);
      }
    }
  }

  lemma OnlyPossible(s: System, step: Step)
    ensures Next(s, step).Some? <==> CanStep(s, step)
  {
  }

  /** After any run exactly the possible steps can be taken, and each does what the kept frames say. */
  lemma KeepsExactly(steps: seq<Step>, step: Step)
    requires Run(steps).Some?
    ensures Run(steps + [step]).Some? <==> CanStep(Run(steps).value, step)
    ensures CanStep(Run(steps).value, step) ==> StepsRight(Run(steps).value, step, Run(steps + [step]).value)
    ensures WaitsRight(Run(steps).value)
  {
    hide Next, WaitsRight, StepsRight, Conserved, Ordered, ChainKept;
    assert (steps + [step])[..|steps|] == steps;
    var s := Run(steps).value;
    WaitingIsRight(steps);
    RunsKeep(steps);
    OnlyPossible(s, step);
    if CanStep(s, step) {
      if step.Arrives? {
        ArrivingIsRight(s, step.data);
      } else {
        OtherStepsAreRight(s, step);
      }
    }
  }

  /** Sending a frame with nobody in between is the arrival, and the steps of the eviction if it begins one. */
  lemma SendIsItsSteps(s: System, key: bool)
    requires s.producer.Idle? && |s.sender.channel| <= 2
    ensures var sent := SendFresh(s.sender, Frame(s.events, key));
            var arrived := Next(s, Arrives(Contiguous(key))).value;
            if arrived.producer.Idle? then arrived.sender == sent
            else
              var once := Next(arrived, EvictsOne);
              once.Some? &&
              var twice := Next(once.value, EvictsOne);
              twice.Some? &&
              var finished := Next(twice.value, FinishesEviction);
              finished.Some? && finished.value.sender == sent
  {
  }
}
