/**
 * Three concurrent actors share the raw frame queue: the service thread binds
 * and resets, a decoder pump pushes frames, and the mux thread writes output.
 * A run is any interleaving of their steps in which no command fails.
 */
module Mux {
  import opened Wrappers
  import opened Bytes
  import opened RawOutput

  /** A decoded frame: `source` counts binds, `serial` counts pushes. */
  datatype Frame = Frame(data: seq<byte>, source: nat, serial: nat)

  /** One frame on the output: None is the neutral frame. */
  datatype Emission = Emission(frame: Option<Frame>, at: nat, decoder: Option<nat>)

  /** A tick at `at` took frame `serial` out of the queue. */
  datatype Take = Take(serial: nat, at: nat)

  /** The mux obeyed a command when `taken` takes had happened. */
  datatype Obeyed = Obeyed(command: Command, taken: nat)

  datatype Command = Activate | Deactivate

  /** Where the service thread is in `bind` or `reset`. */
  datatype ServicePc =
    | Ready
    | BindSpawned | BindCleared | BindWaiting
    | ResetStarted | ResetCleared | ResetWaiting | ResetAcknowledged | ResetJoined

  datatype MuxPc =
    | Waiting
    | Handling(command: Command)
    | Writing(emission: Emission)

  datatype Pump = Pump(source: nat, ended: bool)

  datatype System = System(
    frameBytes: nat,
    clock: nat,
    queue: seq<Frame>,
    // the service thread
    service: ServicePc,
    bound: Option<nat>,
    decoder: Option<nat>,
    spawned: nat,
    // the pump of the running decoder
    pump: Option<Pump>,
    // the command channel and its acknowledgement
    command: Option<Command>,
    acknowledged: bool,
    // the mux thread
    memory: MuxMemory<Frame>,
    mux: MuxPc,
    // history: everything pushed, everything a tick took from the queue, the commands obeyed, everything written
    pushed: seq<Frame>,
    takes: seq<Take>,
    obeyed: seq<Obeyed>,
    output: seq<Emission>)

  function Initial(frameBytes: nat): System
  {
    System(frameBytes, 0, [], Ready, None, None, 0, None, None, false, Switched(false), Waiting, [], [], [], [])
  }

  datatype Event =
    | BindSpawnsDecoder | BindClears | BindSends | BindReturns
    | ResetStarts | ResetClears | ResetSends | ResetHears | ResetJoins | ResetClearsAgain
    | PumpPushes(data: seq<byte>) | PumpEnds
    | MuxReceives | MuxHandles | MuxTicks(now: nat) | MuxWrites

  function Next(s: System, event: Event): Option<System>
  {
    match event
    // bind: spawn the decoder, clear, send Activate, wait, record the binding
    case BindSpawnsDecoder =>
      if s.service.Ready? && s.bound.None? then
        Some(s.(service := BindSpawned, decoder := Some(s.spawned), pump := Some(Pump(s.spawned, false)), spawned := s.spawned + 1))
      else None
    case BindClears =>
      if s.service.BindSpawned? then Some(s.(service := BindCleared, queue := [])) else None
    case BindSends =>
      if s.service.BindCleared? then Some(s.(service := BindWaiting, command := Some(Activate))) else None
    case BindReturns =>
      if s.service.BindWaiting? && s.acknowledged then
        Some(s.(service := Ready, acknowledged := false, bound := s.decoder))
      else None
    // reset: clear, send Deactivate, wait, kill and join the decoder, clear again
    case ResetStarts =>
      if s.service.Ready? then Some(s.(service := ResetStarted)) else None
    case ResetClears =>
      if s.service.ResetStarted? then Some(s.(service := ResetCleared, queue := [])) else None
    case ResetSends =>
      if s.service.ResetCleared? then Some(s.(service := ResetWaiting, command := Some(Deactivate))) else None
    case ResetHears =>
      if s.service.ResetWaiting? && s.acknowledged then Some(s.(service := ResetAcknowledged, acknowledged := false)) else None
    case ResetJoins =>
      if s.service.ResetAcknowledged? && (s.pump.None? || s.pump.value.ended) then Some(s.(service := ResetJoined, pump := None))
      else None
    case ResetClearsAgain =>
      if s.service.ResetJoined? then Some(s.(service := Ready, queue := [], bound := None, decoder := None)) else None
    // the pump: whole frames until the decoder's output ends
    case PumpPushes(data) =>
      if s.pump.Some? && !s.pump.value.ended && |data| == s.frameBytes then
        var frame := Frame(data, s.pump.value.source, |s.pushed|);
        Some(s.(queue := Pushed(s.queue, frame), pushed := s.pushed + [frame]))
      else None
    case PumpEnds =>
      if s.pump.Some? then Some(s.(pump := Some(s.pump.value.(ended := true)))) else None
    // the mux thread
    case MuxReceives =>
      if s.mux.Waiting? && s.command.Some? then
        Some(s.(mux := Handling(s.command.value), command := None, queue := []))
      else None
    case MuxHandles =>
      if s.mux.Handling? then
        Some(s.(mux := Waiting, memory := Switched(s.mux.command.Activate?), acknowledged := true,
                obeyed := s.obeyed + [Obeyed(s.mux.command, |s.takes|)]))
      else None
    case MuxTicks(now) =>
      if s.mux.Waiting? && s.clock <= now then
        var latest := if s.memory.active then Latest(s.queue) else None;
        var memory := Ticked(s.memory, latest, now);
        var emission := Emission(Chosen(memory, now), now, s.decoder);
        Some(s.(clock := now, memory := memory, mux := Writing(emission),
                queue := if s.memory.active then [] else s.queue,
                takes := if s.memory.active && s.queue != [] then s.takes + [Take(s.queue[|s.queue| - 1].serial, now)] else s.takes))
      else None
    case MuxWrites =>
      if s.mux.Writing? then
        Some(s.(mux := Waiting, output := s.output + [s.mux.emission.(decoder := s.decoder)]))
      else None
  }

  function RunFrom(s: System, events: seq<Event>): Option<System>
    decreases |events|
  {
    if events == [] then Some(s)
    else
      match RunFrom(s, events[..|events| - 1])
      case None => None
      case Some(before) => Next(before, events[|events| - 1])
  }

  // ------------------------------------------------------------- invariants

  /** The commands on their way agree with what the service thread waits for. */
  predicate Handshake(s: System)
  {
    var inFlight := s.command.Some? || s.mux.Handling?;
    && (s.command.Some? ==> !s.mux.Handling? && !s.acknowledged)
    && (s.mux.Handling? ==> !s.acknowledged)
    && (s.service.BindWaiting? || s.service.ResetWaiting? <==> inFlight || s.acknowledged)
    && (s.command.Some? ==> s.command.value.Activate? == s.service.BindWaiting?)
    && (s.mux.Handling? ==> s.mux.command.Activate? == s.service.BindWaiting?)
  }

  /** The mux may show frames only between two acknowledgements. */
  predicate Showing(s: System)
  {
    match s.service
    case Ready => s.bound.Some?
    case BindWaiting => s.acknowledged
    case ResetStarted => s.bound.Some?
    case ResetCleared => s.bound.Some?
    case ResetWaiting => !s.acknowledged && s.bound.Some?
    case _ => false
  }

  /** There is at most one decoder, and the service thread knows which. */
  predicate Owned(s: System)
  {
    && (s.bound.Some? ==> s.bound == s.decoder)
    && (s.service.Ready? && s.bound.None? ==> s.decoder.None?)
    && (s.service.BindSpawned? || s.service.BindCleared? || s.service.BindWaiting? ==> s.bound.None? && s.decoder.Some?)
    && (s.pump.Some? ==> s.decoder == Some(s.pump.value.source))
    && (s.decoder.Some? ==> s.decoder.value < s.spawned)
    && (s.service.ResetJoined? ==> s.pump.None?)
    && (s.decoder.None? ==> s.queue == [])
  }

  predicate QueueOfDecoder(s: System)
  {
    forall frame :: frame in s.queue ==> Some(frame.source) == s.decoder
  }

  predicate MemoryOfDecoder(s: System)
  {
    && (s.memory.active <==> Showing(s))
    && (s.memory.lastFrame.Some? <==> s.memory.lastFrameAt.Some?)
    && (s.memory.lastFrame.Some? ==> s.memory.active && Some(s.memory.lastFrame.value.source) == s.decoder)
    && (s.mux.Writing? && s.mux.emission.frame.Some? ==>
          s.memory.active && Some(s.mux.emission.frame.value.source) == s.decoder)
  }

  /** Every frame still in reach comes from the one decoder there is. */
  predicate OneSource(s: System)
  {
    Owned(s) && QueueOfDecoder(s) && MemoryOfDecoder(s)
  }

  /** The newest frame taken so far. */
  function Shown(s: System): int
  {
    if s.takes == [] then -1 else s.takes[|s.takes| - 1].serial
  }

  predicate Numbered(s: System)
  {
    && -1 <= Shown(s) < |s.pushed|
    && (forall i :: 0 <= i < |s.pushed| ==> s.pushed[i].serial == i && |s.pushed[i].data| == s.frameBytes)
  }

  predicate QueueIsNewer(s: System)
  {
    forall frame :: frame in s.queue ==> Shown(s) < frame.serial < |s.pushed| && s.pushed[frame.serial] == frame
  }

  /** No frame is taken twice, and none before one that was pushed earlier. */
  predicate TakesInOrder(s: System)
  {
    && (forall i, j :: 0 <= i < j < |s.takes| ==> s.takes[i].serial < s.takes[j].serial)
    && (forall i, j :: 0 <= i < j < |s.takes| ==> s.takes[i].at <= s.takes[j].at)
    && (forall i :: 0 <= i < |s.takes| ==> s.takes[i].at <= s.clock)
  }

  /** What the mux remembers is the last frame taken, and when it was taken. */
  predicate MemoryIsTaken(s: System)
    requires Numbered(s)
  {
    s.memory.lastFrame.Some? ==>
      && s.takes != [] && s.memory.lastFrameAt.Some?
      && s.takes[|s.takes| - 1] == Take(s.memory.lastFrame.value.serial, s.memory.lastFrameAt.value)
      && s.pushed[Shown(s)] == s.memory.lastFrame.value
  }

  /** Frames are the ones pushed, and none is older than what was taken. */
  predicate Ordered(s: System)
  {
    Numbered(s) && QueueIsNewer(s) && TakesInOrder(s) && MemoryIsTaken(s)
  }

  /** An emission that may appear on the output of a system with this history. */
  predicate Legitimate(s: System, e: Emission)
  {
    e.frame.Some? ==>
      && e.frame.value.serial < |s.pushed| && s.pushed[e.frame.value.serial] == e.frame.value
      && e.decoder == Some(e.frame.value.source)
      && exists k :: 0 <= k < |s.takes| && TakenFor(s.takes[k], e)
  }

  /** The frame of `e` was taken from the queue by `take`, less than 400 ms before `e` was chosen. */
  predicate TakenFor(take: Take, e: Emission)
    requires e.frame.Some?
  {
    take.serial == e.frame.value.serial && take.at <= e.at < take.at + STALE_FRAME_LIMIT_NS
  }

  predicate OutputSafe(s: System)
  {
    && (forall e :: e in s.output ==> Legitimate(s, e))
    && (s.mux.Writing? ==> Legitimate(s, s.mux.emission)
                           && (s.mux.emission.frame.Some? ==> s.mux.emission.frame.value.serial == Shown(s)))
    && (forall e :: e in s.output && e.frame.Some? ==> e.frame.value.serial <= Shown(s))
    && (forall i, j :: 0 <= i < j < |s.output| && s.output[i].frame.Some? && s.output[j].frame.Some? ==>
          s.output[i].frame.value.serial <= s.output[j].frame.value.serial)
  }

  predicate Invariant(s: System)
  {
    Handshake(s) && OneSource(s) && Ordered(s) && OutputSafe(s)
  }

  lemma StepKeepsHandshake(s: System, event: Event)
    requires Handshake(s) && Next(s, event).Some?
    ensures Handshake(Next(s, event).value)
  {
  }

  lemma StepKeepsOwned(s: System, event: Event)
    requires Handshake(s) && Owned(s) && Next(s, event).Some?
    ensures Owned(Next(s, event).value)
  {
    hide Pushed;
    hide Ticked;
    hide Chosen;
  }

  lemma PushedAddsOne(queue: seq<Frame>, frame: Frame)
    ensures forall f :: f in Pushed(queue, frame) ==> f in queue || f == frame
  {
  }

  /** A step adds to the queue at most the frame it pushes. */
  lemma QueueComesFrom(s: System, event: Event)
    requires Next(s, event).Some?
    ensures var next := Next(s, event).value;
            && (event.PumpPushes? ==>
                  && s.pump.Some? && next.pushed == s.pushed + [Frame(event.data, s.pump.value.source, |s.pushed|)]
                  && next.decoder == s.decoder && next.takes == s.takes
                  && forall f :: f in next.queue ==> f in s.queue || f == next.pushed[|s.pushed|])
            && (!event.PumpPushes? ==>
                  && next.pushed == s.pushed
                  && (next.queue == [] || (next.queue == s.queue && next.takes == s.takes)))
  {
    hide Ticked, Chosen;
    if event.PumpPushes? && s.pump.Some? {
      PushedAddsOne(s.queue, Frame(event.data, s.pump.value.source, |s.pushed|));
    }
    hide Pushed;
  }

  lemma StepKeepsQueueOfDecoder(s: System, event: Event)
    requires Owned(s) && QueueOfDecoder(s) && Next(s, event).Some?
    ensures QueueOfDecoder(Next(s, event).value)
  {
    QueueComesFrom(s, event);
    var next := Next(s, event).value;
    if !event.PumpPushes? && next.queue != [] {
      QueueKeepsDecoder(s, event);
    }
    hide Next;
  }

  lemma QueueKeepsDecoder(s: System, event: Event)
    requires Owned(s) && Next(s, event).Some? && Next(s, event).value.queue != [] && !event.PumpPushes?
    ensures Next(s, event).value.decoder == s.decoder
  {
    hide Ticked, Chosen;
  }

  lemma StepKeepsMemoryOfDecoder(s: System, event: Event)
    requires Handshake(s) && OneSource(s) && Next(s, event).Some?
    ensures MemoryOfDecoder(Next(s, event).value)
  {
    hide Pushed;
    if event.MuxTicks? && s.queue != [] {
      assert s.queue[|s.queue| - 1] in s.queue;
    }
  }

  lemma TakesFromQueue(s: System, event: Event)
    requires event.MuxTicks? && s.memory.active && s.queue != []
    ensures Latest(s.queue).value in s.queue
  {
  }

  lemma OnlyTicksTake(s: System, event: Event)
    requires Next(s, event).Some? && !event.MuxTicks?
    ensures Next(s, event).value.takes == s.takes && Next(s, event).value.clock == s.clock
  {
  }

  lemma TickTakes(s: System, now: nat)
    requires Next(s, MuxTicks(now)).Some?
    ensures var next := Next(s, MuxTicks(now)).value;
            next.takes == if s.memory.active && s.queue != [] then s.takes + [Take(s.queue[|s.queue| - 1].serial, now)] else s.takes
  {
    hide Ticked, Chosen;
  }

  lemma FrameBytesStay(s: System, event: Event)
    requires Next(s, event).Some?
    ensures Next(s, event).value.frameBytes == s.frameBytes
    ensures event.PumpPushes? ==> |event.data| == s.frameBytes
  {
    hide Ticked, Chosen, Pushed;
  }

  lemma StepKeepsNumbered(s: System, event: Event)
    requires Numbered(s) && QueueIsNewer(s) && Next(s, event).Some?
    ensures Numbered(Next(s, event).value)
  {
    QueueComesFrom(s, event);
    FrameBytesStay(s, event);
    if event.MuxTicks? {
      TickTakes(s, event.now);
      assert s.memory.active && s.queue != [] ==> s.queue[|s.queue| - 1] in s.queue;
    } else {
      OnlyTicksTake(s, event);
    }
    hide Next;
  }

  lemma StepKeepsQueueIsNewer(s: System, event: Event)
    requires Numbered(s) && QueueIsNewer(s) && Next(s, event).Some?
    ensures QueueIsNewer(Next(s, event).value)
  {
    QueueComesFrom(s, event);
    hide Next;
  }

  lemma TickTakesInOrder(s: System, now: nat)
    requires Numbered(s) && QueueIsNewer(s) && TakesInOrder(s) && Next(s, MuxTicks(now)).Some?
    ensures TakesInOrder(Next(s, MuxTicks(now)).value)
  {
    hide Ticked;
    hide Chosen;
    var next := Next(s, MuxTicks(now)).value;
    if next.takes != s.takes {
      TakesFromQueue(s, MuxTicks(now));
      assert forall i :: 0 <= i < |s.takes| ==> s.takes[i].serial <= Shown(s);
    }
  }

  lemma StepKeepsTakesInOrder(s: System, event: Event)
    requires Numbered(s) && QueueIsNewer(s) && TakesInOrder(s) && Next(s, event).Some?
    ensures TakesInOrder(Next(s, event).value)
  {
    if event.MuxTicks? {
      TickTakesInOrder(s, event.now);
    } else {
      OnlyTicksTake(s, event);
      hide Next;
    }
  }

  lemma StepKeepsMemoryIsTaken(s: System, event: Event)
    requires MemoryOfDecoder(s) && Ordered(s) && Next(s, event).Some? && Numbered(Next(s, event).value)
    ensures MemoryIsTaken(Next(s, event).value)
  {
    hide Pushed;
    hide Chosen;
    if event.MuxTicks? && s.memory.active && s.queue != [] {
      TakesFromQueue(s, event);
    }
  }

  lemma StepKeepsOrdered(s: System, event: Event)
    requires MemoryOfDecoder(s) && Ordered(s) && Next(s, event).Some?
    ensures Ordered(Next(s, event).value)
  {
    StepKeepsNumbered(s, event);
    StepKeepsQueueIsNewer(s, event);
    StepKeepsTakesInOrder(s, event);
    hide Next, Numbered, QueueIsNewer, TakesInOrder, MemoryIsTaken, MemoryOfDecoder;
    StepKeepsMemoryIsTaken(s, event);
  }

  /** What was legitimate stays so while history only grows. */
  lemma HistoryGrows(s: System, event: Event)
    requires Ordered(s) && Next(s, event).Some?
    ensures var next := Next(s, event).value;
            s.pushed <= next.pushed && s.takes <= next.takes && Shown(s) <= Shown(next) && next.frameBytes == s.frameBytes
  {
  }

  lemma StaysLegitimate(s: System, next: System, e: Emission)
    requires Legitimate(s, e) && s.pushed <= next.pushed && s.takes <= next.takes
    ensures Legitimate(next, e)
  {
    if e.frame.Some? {
      var k :| 0 <= k < |s.takes| && TakenFor(s.takes[k], e);
      assert next.takes[k] == s.takes[k];
    }
  }

  lemma TickIsLegitimate(s: System, now: nat)
    requires Handshake(s) && OneSource(s) && Ordered(s) && Next(s, MuxTicks(now)).Some?
    ensures var next := Next(s, MuxTicks(now)).value;
            && Legitimate(next, next.mux.emission)
            && (next.mux.emission.frame.Some? ==> next.mux.emission.frame.value.serial == Shown(next))
  {
    HistoryGrows(s, MuxTicks(now));
    StepKeepsMemoryOfDecoder(s, MuxTicks(now));
    StepKeepsOrdered(s, MuxTicks(now));
    var next := Next(s, MuxTicks(now)).value;
    if next.mux.emission.frame.Some? {
      assert TakenFor(next.takes[|next.takes| - 1], next.mux.emission);
    }
  }

  /** A step that writes nothing keeps the output safe while history grows. */
  lemma GrowthKeepsOutputSafe(s: System, next: System)
    requires OutputSafe(s) && next.output == s.output
    requires s.pushed <= next.pushed && s.takes <= next.takes && Shown(s) <= Shown(next)
    requires next.mux.Writing? ==>
      && Legitimate(next, next.mux.emission)
      && (next.mux.emission.frame.Some? ==> next.mux.emission.frame.value.serial == Shown(next))
    ensures OutputSafe(next)
  {
    forall e | e in next.output ensures Legitimate(next, e) {
      StaysLegitimate(s, next, e);
    }
    hide Legitimate;
  }

  lemma WriteKeepsOutputSafe(s: System)
    requires OneSource(s) && OutputSafe(s) && Next(s, MuxWrites).Some?
    ensures OutputSafe(Next(s, MuxWrites).value)
  {
    var next := Next(s, MuxWrites).value;
    var e := s.mux.emission.(decoder := s.decoder);
    assert Legitimate(next, e) by {
      if e.frame.Some? {
        var k :| 0 <= k < |s.takes| && TakenFor(s.takes[k], s.mux.emission);
        assert TakenFor(next.takes[k], e);
      }
    }
    forall other | other in s.output ensures Legitimate(next, other) {
      StaysLegitimate(s, next, other);
    }
    hide Legitimate, OneSource;
    assert forall i :: 0 <= i < |s.output| ==> s.output[i] in s.output;
  }

  lemma StepKeepsOutputSafe(s: System, event: Event)
    requires Invariant(s) && Next(s, event).Some?
    ensures OutputSafe(Next(s, event).value)
  {
    HistoryGrows(s, event);
    if event.MuxWrites? {
      WriteKeepsOutputSafe(s);
    } else {
      var next := Next(s, event).value;
      if event.MuxTicks? {
        TickIsLegitimate(s, event.now);
      } else if next.mux.Writing? {
        WritingStays(s, event);
        StaysLegitimate(s, next, next.mux.emission);
      }
      OnlyWritesWrite(s, event);
      hide Next, Handshake, OneSource, Ordered, Legitimate, OutputSafe;
      GrowthKeepsOutputSafe(s, next);
    }
  }

  lemma OnlyWritesWrite(s: System, event: Event)
    requires Next(s, event).Some? && !event.MuxWrites?
    ensures Next(s, event).value.output == s.output
  {
  }

  /** Between choosing a frame and writing it, nothing is taken and the choice stands. */
  lemma WritingStays(s: System, event: Event)
    requires OutputSafe(s) && Next(s, event).Some? && !event.MuxTicks? && !event.MuxWrites? && Next(s, event).value.mux.Writing?
    ensures var next := Next(s, event).value;
            && s.mux.Writing? && next.mux == s.mux && next.takes == s.takes && Legitimate(s, next.mux.emission)
            && (next.mux.emission.frame.Some? ==> next.mux.emission.frame.value.serial == Shown(next))
  {
    hide Legitimate;
  }

  lemma StepKeepsInvariant(s: System, event: Event)
    requires Invariant(s) && Next(s, event).Some?
    ensures Invariant(Next(s, event).value) && Next(s, event).value.frameBytes == s.frameBytes
  {
    HistoryGrows(s, event);
    StepKeepsHandshake(s, event);
    StepKeepsOwned(s, event);
    StepKeepsQueueOfDecoder(s, event);
    StepKeepsMemoryOfDecoder(s, event);
    StepKeepsOrdered(s, event);
    StepKeepsOutputSafe(s, event);
  }

  lemma {:induction false} RunsKeepInvariant(s: System, events: seq<Event>)
    requires Invariant(s) && RunFrom(s, events).Some?
    ensures Invariant(RunFrom(s, events).value) && RunFrom(s, events).value.frameBytes == s.frameBytes
    decreases |events|
  {
    hide Invariant;
    hide Next;
    if events != [] {
      RunsKeepInvariant(s, events[..|events| - 1]);
      StepKeepsInvariant(RunFrom(s, events[..|events| - 1]).value, events[|events| - 1]);
    }
  }

  function OutputBytes(output: seq<Emission>, neutral: seq<byte>): seq<byte>
  {
    if output == [] then []
    else
      var last := output[|output| - 1];
      OutputBytes(output[..|output| - 1], neutral) + if last.frame.Some? then last.frame.value.data else neutral
  }

  lemma OneMore(count: nat, size: nat)
    ensures (count + 1) * size == count * size + size
  {
  }

  lemma {:induction false} WholeFrames(output: seq<Emission>, neutral: seq<byte>)
    requires forall e :: e in output && e.frame.Some? ==> |e.frame.value.data| == |neutral|
    ensures |OutputBytes(output, neutral)| == |output| * |neutral|
  {
    if output != [] {
      var front := output[..|output| - 1];
      assert forall e :: e in front ==> e in output;
      assert output[|output| - 1] in output;
      WholeFrames(front, neutral);
      OneMore(|front|, |neutral|);
    }
  }

  /**
   * In every interleaving, each written frame is neutral or was pushed by the
   * decoder of the binding in force when it is written, and was taken from the
   * queue, once and by a tick less than 400 ms before; frames never go back in
   * time; and the output is a whole number of frames.
   */
  lemma OutputIsLegitimate(events: seq<Event>, neutral: seq<byte>)
    requires RunFrom(Initial(|neutral|), events).Some?
    ensures var s := RunFrom(Initial(|neutral|), events).value;
            && (forall e :: e in s.output ==> Legitimate(s, e))
            && TakesInOrder(s)
            && (forall i, j :: 0 <= i < j < |s.output| && s.output[i].frame.Some? && s.output[j].frame.Some? ==>
                  s.output[i].frame.value.serial <= s.output[j].frame.value.serial)
            && |OutputBytes(s.output, neutral)| == |s.output| * |neutral|
  {
    RunsKeepInvariant(Initial(|neutral|), events);
    var s := RunFrom(Initial(|neutral|), events).value;
    forall e | e in s.output && e.frame.Some? ensures |e.frame.value.data| == |neutral| {
      assert Legitimate(s, e);
    }
    WholeFrames(s.output, neutral);
  }

  /** Whatever is written by a live mux belongs to the binding the service has, or is just making. */
  lemma LiveOutputIsBound(events: seq<Event>, frameBytes: nat)
    requires RunFrom(Initial(frameBytes), events).Some?
    requires RunFrom(Initial(frameBytes), events).value.mux.Writing?
    requires RunFrom(Initial(frameBytes), events).value.mux.emission.frame.Some?
    ensures var s := RunFrom(Initial(frameBytes), events).value;
            var source := s.mux.emission.frame.value.source;
            s.bound == Some(source) || (s.service.BindWaiting? && s.acknowledged && s.decoder == Some(source))
  {
    RunsKeepInvariant(Initial(frameBytes), events);
  }

  /** Nothing but neutral frames can be written from here on. */
  predicate Silent(s: System)
  {
    !s.memory.active && !(s.mux.Writing? && s.mux.emission.frame.Some?)
  }

  /** The step in which the mux obeys an Activate. */
  predicate Activates(s: System, event: Event)
  {
    event.MuxHandles? && s.mux == Handling(Activate)
  }

  predicate NoActivation(s: System, events: seq<Event>)
  {
    forall i :: 0 <= i < |events| && RunFrom(s, events[..i]).Some? ==>
      !Activates(RunFrom(s, events[..i]).value, events[i])
  }

  lemma StepKeepsSilence(s: System, event: Event)
    requires Silent(s) && Next(s, event).Some? && !Activates(s, event)
    ensures var next := Next(s, event).value;
            && Silent(next) && s.output <= next.output
            && forall i :: |s.output| <= i < |next.output| ==> next.output[i].frame.None?
  {
  }

  lemma {:induction false} SilenceLasts(s: System, events: seq<Event>)
    requires Silent(s) && RunFrom(s, events).Some? && NoActivation(s, events)
    ensures var t := RunFrom(s, events).value;
            && Silent(t) && s.output <= t.output
            && forall i :: |s.output| <= i < |t.output| ==> t.output[i].frame.None?
    decreases |events|
  {
    if events != [] {
      var front := events[..|events| - 1];
      assert NoActivation(s, front) by {
        assert forall i :: 0 <= i < |front| ==> front[..i] == events[..i];
      }
      SilenceLasts(s, front);
      StepKeepsSilence(RunFrom(s, front).value, events[|events| - 1]);
    }
  }

  /** Once a reset's Deactivate is acknowledged, only neutral frames appear until the next Activate is obeyed. */
  lemma ResetSilencesOutput(frameBytes: nat, before: seq<Event>, after: seq<Event>)
    requires RunFrom(Initial(frameBytes), before).Some?
    requires var s := RunFrom(Initial(frameBytes), before).value;
             && s.service.ResetWaiting? && s.acknowledged
             && RunFrom(s, after).Some? && NoActivation(s, after)
    ensures var s := RunFrom(Initial(frameBytes), before).value;
            var t := RunFrom(s, after).value;
            s.output <= t.output && forall i :: |s.output| <= i < |t.output| ==> t.output[i].frame.None?
  {
    hide RunFrom, NoActivation;
    RunsKeepInvariant(Initial(frameBytes), before);
    SilenceLasts(RunFrom(Initial(frameBytes), before).value, after);
  }

  /** A finished reset leaves no frame of the old decoder behind, and nothing to push one. */
  lemma ResetLeavesNothing(frameBytes: nat, events: seq<Event>)
    requires RunFrom(Initial(frameBytes), events).Some?
    requires var s := RunFrom(Initial(frameBytes), events).value; s.service.Ready? && s.bound.None?
    ensures var s := RunFrom(Initial(frameBytes), events).value;
            s.queue == [] && s.pump.None? && s.memory.lastFrame.None? && s.command.None? && Silent(s)
  {
    RunsKeepInvariant(Initial(frameBytes), events);
  }

  // ------------------------------------------------- what the mux must show

  /** The last command the mux obeyed is an Activate. */
  predicate Active(s: System)
  {
    s.obeyed != [] && s.obeyed[|s.obeyed| - 1].command.Activate?
  }

  /** How many takes had happened when the mux last obeyed a command. */
  function Since(s: System): nat
  {
    if s.obeyed == [] then 0 else s.obeyed[|s.obeyed| - 1].taken
  }

  /** The mux remembers the newest take since the Activate it last obeyed, and forgets at every command. */
  predicate Remembers(s: System)
    requires Numbered(s)
  {
    && Since(s) <= |s.takes|
    && (s.memory.active <==> Active(s))
    && (s.memory.lastFrame.Some? <==> Active(s) && Since(s) < |s.takes|)
  }

  /** The newest waiting frame is the newest pushed. */
  predicate QueueEndsNewest(s: System)
  {
    s.queue != [] ==> s.pushed != [] && s.queue[|s.queue| - 1] == s.pushed[|s.pushed| - 1]
  }

  lemma PushedEndsWith(queue: seq<Frame>, frame: Frame)
    ensures Pushed(queue, frame) != [] && Pushed(queue, frame)[|Pushed(queue, frame)| - 1] == frame
  {
  }

  lemma StepKeepsNewest(s: System, event: Event)
    requires QueueEndsNewest(s) && Next(s, event).Some?
    ensures QueueEndsNewest(Next(s, event).value)
  {
    QueueComesFrom(s, event);
    if event.PumpPushes? {
      PushedEndsWith(s.queue, Frame(event.data, s.pump.value.source, |s.pushed|));
      hide Pushed;
    } else {
      hide Next;
    }
  }

  lemma StepKeepsRemembers(s: System, event: Event)
    requires Ordered(s) && MemoryOfDecoder(s) && Remembers(s) && Next(s, event).Some? && Numbered(Next(s, event).value)
    ensures Remembers(Next(s, event).value)
  {
    hide Pushed, Chosen, Ordered, QueueOfDecoder;
  }

  lemma {:induction false} RunsRemember(s: System, events: seq<Event>)
    requires Invariant(s) && Remembers(s) && QueueEndsNewest(s) && RunFrom(s, events).Some?
    ensures var t := RunFrom(s, events).value; Invariant(t) && Remembers(t) && QueueEndsNewest(t)
    decreases |events|
  {
    if events != [] {
      hide Next, Handshake, OneSource, OutputSafe, Remembers, QueueEndsNewest;
      RunsRemember(s, events[..|events| - 1]);
      var before, last := RunFrom(s, events[..|events| - 1]).value, events[|events| - 1];
      StepKeepsInvariant(before, last);
      StepKeepsNewest(before, last);
      RememberedOn(before, last);
    }
  }

  lemma RememberedOn(s: System, event: Event)
    requires Invariant(s) && Remembers(s) && Next(s, event).Some? && Invariant(Next(s, event).value)
    ensures Remembers(Next(s, event).value)
  {
    hide Next, Handshake, OutputSafe, Owned, Remembers;
    StepKeepsRemembers(s, event);
  }

  lemma Reachable(frameBytes: nat, events: seq<Event>)
    requires RunFrom(Initial(frameBytes), events).Some?
    ensures var s := RunFrom(Initial(frameBytes), events).value; Invariant(s) && Remembers(s) && QueueEndsNewest(s)
  {
    RunsRemember(Initial(frameBytes), events);
  }

  /** Some frame taken since the last Activate is younger than 400 ms. */
  predicate FreshTake(s: System, now: nat)
  {
    exists k :: Since(s) <= k < |s.takes| && now < s.takes[k].at + STALE_FRAME_LIMIT_NS
  }

  /**
   * A tick at `now` is taken, and does what it must: an active mux with
   * waiting frames takes the newest frame pushed; the neutral frame is chosen
   * if the mux is not active, or if no frame taken since the Activate is
   * younger than 400 ms, and only then; otherwise the newest frame taken is
   * chosen. What is chosen is the next frame written.
   */
  predicate TickIsRight(s: System, now: nat)
  {
    && Next(s, MuxTicks(now)).Some?
    && var t := Next(s, MuxTicks(now)).value;
       && (s.queue != [] ==> s.pushed != [])
       && t.takes == (if Active(s) && s.queue != [] then s.takes + [Take(|s.pushed| - 1, now)] else s.takes)
       && Active(t) == Active(s) && t.pushed == s.pushed
       && t.mux.Writing? && t.mux.emission.at == now
       && (t.mux.emission.frame.None? <==> !Active(s) || !FreshTake(t, now))
       && (t.mux.emission.frame.Some? ==>
             && t.takes != [] && t.takes[|t.takes| - 1].serial < |t.pushed|
             && t.mux.emission.frame.value == t.pushed[t.takes[|t.takes| - 1].serial])
       && WritesNext(t, s.output, t.mux.emission.frame)
  }

  /** The next write adds exactly `frame` to `output`. */
  predicate WritesNext(t: System, output: seq<Emission>, frame: Option<Frame>)
  {
    && Next(t, MuxWrites).Some?
    && var u := Next(t, MuxWrites).value;
       |u.output| == |output| + 1 && u.output[..|output|] == output && u.output[|output|].frame == frame
  }

  /** In every reachable state in which the mux waits, a tick does what it must. */
  lemma TickExactly(frameBytes: nat, events: seq<Event>, now: nat)
    requires RunFrom(Initial(frameBytes), events).Some?
    requires var s := RunFrom(Initial(frameBytes), events).value; s.mux.Waiting? && s.clock <= now
    ensures TickIsRight(RunFrom(Initial(frameBytes), events).value, now)
  {
    hide *;
    Reachable(frameBytes, events);
    TickOnce(RunFrom(Initial(frameBytes), events).value, now);
  }

  lemma TickOnce(s: System, now: nat)
    requires Invariant(s) && Remembers(s) && QueueEndsNewest(s) && s.mux.Waiting? && s.clock <= now
    ensures TickIsRight(s, now)
  {
    TickStarts(s, now);
    TickChooses(s, now);
    hide Invariant, Remembers, QueueEndsNewest, Next, Active, FreshTake, WritesNext;
  }

  lemma TickStarts(s: System, now: nat)
    requires QueueEndsNewest(s) && Numbered(s) && s.mux.Waiting? && s.clock <= now && (s.memory.active <==> Active(s))
    ensures Next(s, MuxTicks(now)).Some?
    ensures var t := Next(s, MuxTicks(now)).value;
            && (s.queue != [] ==> s.pushed != [])
            && t.takes == (if Active(s) && s.queue != [] then s.takes + [Take(|s.pushed| - 1, now)] else s.takes)
            && t.obeyed == s.obeyed && t.pushed == s.pushed && t.mux.Writing? && t.mux.emission.at == now
            && WritesNext(t, s.output, t.mux.emission.frame)
  {
    hide Ticked, Chosen;
  }

  lemma TickChooses(s: System, now: nat)
    requires Invariant(s) && Remembers(s) && Next(s, MuxTicks(now)).Some?
    ensures var t := Next(s, MuxTicks(now)).value;
            && (t.mux.emission.frame.None? <==> !Active(s) || !FreshTake(t, now))
            && (t.mux.emission.frame.Some? ==>
                  && t.takes != [] && t.takes[|t.takes| - 1].serial < |t.pushed|
                  && t.mux.emission.frame.value == t.pushed[t.takes[|t.takes| - 1].serial])
  {
    var t := Next(s, MuxTicks(now)).value;
    StepKeepsOrdered(s, MuxTicks(now));
    StepKeepsRemembers(s, MuxTicks(now));
    StepKeepsMemoryOfDecoder(s, MuxTicks(now));
    TickReads(s, now);
    hide Next, Invariant;
    MemoryChooses(t, now);
  }

  /** The emission is what the memory left by the tick chooses. */
  lemma TickReads(s: System, now: nat)
    requires Next(s, MuxTicks(now)).Some?
    ensures var t := Next(s, MuxTicks(now)).value;
            t.mux.emission.frame == Chosen(t.memory, now) && t.obeyed == s.obeyed
  {
    hide Chosen;
  }

  lemma MemoryChooses(t: System, now: nat)
    requires Ordered(t) && Remembers(t) && MemoryOfDecoder(t)
    ensures Chosen(t.memory, now).None? <==> !Active(t) || !FreshTake(t, now)
    ensures Chosen(t.memory, now).Some? ==>
              && t.takes != [] && t.takes[|t.takes| - 1].serial < |t.pushed|
              && Chosen(t.memory, now).value == t.pushed[t.takes[|t.takes| - 1].serial]
  {
    hide QueueIsNewer;
    if Active(t) && Since(t) < |t.takes| {
      var last := |t.takes| - 1;
      assert FreshTake(t, now) <==> now < t.takes[last].at + STALE_FRAME_LIMIT_NS;
    }
  }

  /** A frame put out by the decoder is queued, taken by a tick at `now`, and written. */
  predicate ShowsPushed(s: System, data: seq<byte>, now: nat)
  {
    && Next(s, PumpPushes(data)).Some?
    && var pushed := Next(s, PumpPushes(data)).value;
       && Next(pushed, MuxTicks(now)).Some?
       && var ticked := Next(pushed, MuxTicks(now)).value;
          && ticked.pushed != [] && ticked.pushed[|ticked.pushed| - 1].data == data
          && WritesNext(ticked, s.output, Some(ticked.pushed[|ticked.pushed| - 1]))
  }

  /**
   * A frame the decoder puts out while the mux is active and waits is what
   * the mux writes at its next tick.
   */
  lemma DecodedFrameIsShown(frameBytes: nat, events: seq<Event>, data: seq<byte>, now: nat)
    requires RunFrom(Initial(frameBytes), events).Some?
    requires var s := RunFrom(Initial(frameBytes), events).value;
             && s.mux.Waiting? && Active(s) && s.pump.Some? && !s.pump.value.ended && s.clock <= now && |data| == s.frameBytes
    ensures ShowsPushed(RunFrom(Initial(frameBytes), events).value, data, now)
  {
    hide *;
    Reachable(frameBytes, events);
    FrameComesThrough(RunFrom(Initial(frameBytes), events).value, data, now);
  }

  lemma FrameComesThrough(s: System, data: seq<byte>, now: nat)
    requires Invariant(s) && Remembers(s) && QueueEndsNewest(s)
    requires s.mux.Waiting? && Active(s) && s.pump.Some? && !s.pump.value.ended && s.clock <= now && |data| == s.frameBytes
    ensures ShowsPushed(s, data, now)
  {
    PushIsQueued(s, data);
    var pushed := Next(s, PumpPushes(data)).value;
    StepKeepsInvariant(s, PumpPushes(data));
    StepKeepsNewest(s, PumpPushes(data));
    RememberedOn(s, PumpPushes(data));
    hide Next, Invariant, Remembers, QueueEndsNewest;
    TickOnce(pushed, now);
    ActiveTickIsLive(pushed, now);
  }

  lemma PushIsQueued(s: System, data: seq<byte>)
    requires s.pump.Some? && !s.pump.value.ended && |data| == s.frameBytes
    ensures Next(s, PumpPushes(data)).Some?
    ensures var t := Next(s, PumpPushes(data)).value;
            && t.queue != [] && t.pushed != [] && t.pushed[|t.pushed| - 1].data == data
            && t.mux == s.mux && t.clock == s.clock && t.obeyed == s.obeyed && t.output == s.output
  {
    PushedEndsWith(s.queue, Frame(data, s.pump.value.source, |s.pushed|));
    hide Pushed;
  }

  /** An active mux with a waiting frame has a fresh take, of the newest frame. */
  lemma ActiveTickIsLive(s: System, now: nat)
    requires Active(s) && s.queue != [] && s.pushed != [] && Since(s) <= |s.takes| && Next(s, MuxTicks(now)).Some?
    requires Next(s, MuxTicks(now)).value.takes == s.takes + [Take(|s.pushed| - 1, now)]
    ensures FreshTake(Next(s, MuxTicks(now)).value, now)
  {
    var t := Next(s, MuxTicks(now)).value;
    assert Since(t) == Since(s);
    assert t.takes[|s.takes|].at == now;
  }

  // ------------------------------------------- a bind or reset comes back

  /** A step that brings a bind or reset under way nearer to its end. */
  function Advance(s: System): Event
  {
    match s.service
    case Ready => MuxWrites
    case BindSpawned => BindClears
    case BindCleared => BindSends
    case BindWaiting => if s.acknowledged then BindReturns else MuxAdvance(s)
    case ResetStarted => ResetClears
    case ResetCleared => ResetSends
    case ResetWaiting => if s.acknowledged then ResetHears else MuxAdvance(s)
    case ResetAcknowledged => if s.pump.Some? && !s.pump.value.ended then PumpEnds else ResetJoins
    case ResetJoined => ResetClearsAgain
  }

  function MuxAdvance(s: System): Event
  {
    match s.mux
    case Waiting => MuxReceives
    case Handling(_) => MuxHandles
    case Writing(_) => MuxWrites
  }

  /** How many such steps are left at most. */
  function Rank(s: System): nat
  {
    var answer := if s.acknowledged then 0 else if s.mux.Handling? then 1 else if s.mux.Waiting? then 2 else 3;
    match s.service
    case Ready => 0
    case BindSpawned => 6
    case BindCleared => 5
    case BindWaiting => 1 + answer
    case ResetStarted => 10
    case ResetCleared => 9
    case ResetWaiting => 5 + answer
    case ResetAcknowledged => if s.pump.Some? && !s.pump.value.ended then 4 else 3
    case ResetJoined => 2
  }

  /** The binding a bind or reset under way leads to. */
  function Outcome(s: System): Option<nat>
  {
    match s.service
    case Ready => s.bound
    case BindSpawned => s.decoder
    case BindCleared => s.decoder
    case BindWaiting => s.decoder
    case _ => None
  }

  lemma AdvanceWorks(s: System)
    requires Invariant(s) && !s.service.Ready?
    ensures Next(s, Advance(s)).Some?
    ensures var t := Next(s, Advance(s)).value; Rank(t) < Rank(s) && Outcome(t) == Outcome(s)
  {
    hide OneSource, Ordered, OutputSafe;
  }

  /**
   * From every reachable state at most ten steps bring the bind or reset
   * under way to its end: a bind with the new decoder bound and the mux
   * active, a reset with nothing bound and the mux inactive.
   */
  lemma {:induction false} BindAndResetReturn(frameBytes: nat, events: seq<Event>) returns (more: seq<Event>)
    requires RunFrom(Initial(frameBytes), events).Some?
    ensures RunFrom(Initial(frameBytes), events + more).Some?
    ensures var s, t := RunFrom(Initial(frameBytes), events).value, RunFrom(Initial(frameBytes), events + more).value;
            && |more| <= Rank(s) <= 10
            && t.service.Ready? && t.bound == Outcome(s) && (Active(t) <==> t.bound.Some?)
    decreases Rank(RunFrom(Initial(frameBytes), events).value)
  {
    hide *;
    Reachable(frameBytes, events);
    var s := RunFrom(Initial(frameBytes), events).value;
    RankIsSmall(s);
    if s.service.Ready? {
      more := [];
      assert events + [] == events;
      ReadyMeans(s);
    } else {
      AdvanceWorks(s);
      RunsOn(Initial(frameBytes), events, Advance(s));
      var longer := events + [Advance(s)];
      var rest := BindAndResetReturn(frameBytes, longer);
      more := [Advance(s)] + rest;
      assert events + more == longer + rest;
    }
  }

  lemma ReadyMeans(s: System)
    requires Invariant(s) && Remembers(s) && s.service.Ready?
    ensures Outcome(s) == s.bound && Rank(s) == 0 && (Active(s) <==> s.bound.Some?)
  {
    hide QueueOfDecoder, OutputSafe, Ordered, Active;
  }

  lemma RunsOn(s: System, events: seq<Event>, event: Event)
    requires RunFrom(s, events).Some?
    ensures RunFrom(s, events + [event]) == Next(RunFrom(s, events).value, event)
  {
    hide Next;
    assert (events + [event])[..|events|] == events;
  }

  lemma RankIsSmall(s: System)
    ensures Rank(s) <= 10
  {
  }
}
