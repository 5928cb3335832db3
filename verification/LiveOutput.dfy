/**
 * The output service as a whole: its thread executes the items of the pipe,
 * and while it binds, feeds and resets decoders, the decoder pump and the mux
 * run beside it. This joins what the decoder is given to what the mux shows.
 */
module LiveOutput {
  import opened Wrappers
  import opened Bytes
  import opened Media
  import opened Validator
  import opened Service
  import opened OutputWorker
  import RawOutput
  import Mux

  /** A decoder, the binding it was spawned for, and everything written to it. */
  datatype Decoder = Decoder(binding: MediaBinding, input: seq<seq<byte>>)

  /**
   * `rest` is what the service thread has not executed yet. `target` is the
   * service state that a bind or reset under way leads to. `decoders` holds
   * every decoder ever spawned, the n-th being source n of the mux; `inForce`
   * holds the binding in force when each output frame was written.
   */
  datatype Live = Live(
    rest: seq<byte>,
    service: ServiceState,
    target: ServiceState,
    decoders: seq<Decoder>,
    mux: Mux.System,
    inForce: seq<Option<MediaBinding>>)

  function Begin(input: seq<byte>, frameBytes: nat): Live
  {
    Live(input, Unbound, Unbound, [], Mux.Initial(frameBytes), [])
  }

  /** The service thread executes the next item, or some thread takes another step of what is under way. */
  datatype Step = Executes | Runs(event: Mux.Event)

  /** The binding in force, which is the one being made once the mux may show its frames. */
  function InForce(l: Live): Option<MediaBinding>
  {
    Bound(if l.mux.bound.Some? then l.service else l.target)
  }

  function Binds(item: ServiceInput): Option<MediaBinding>
  {
    if item.Control? && item.command.Bind? then Some(item.command.binding) else None
  }

  /** One item that the service does not refuse: it starts a bind or a reset, or is one access unit for the decoder. */
  function Start(l: Live, item: ServiceInput, after: ServiceState): Option<Live>
  {
    if Binds(item).Some? then
      match Mux.Next(l.mux, Mux.BindSpawnsDecoder)
      case None => None
      case Some(mux) => Some(l.(target := after, mux := mux, decoders := l.decoders + [Decoder(Binds(item).value, [])]))
    else if after.validator.None? then
      match Mux.Next(l.mux, Mux.ResetStarts)
      case None => None
      case Some(mux) => Some(l.(target := after, mux := mux))
    else if item.MediaRead? && l.mux.decoder.Some? && l.mux.decoder.value < |l.decoders| then
      var k := l.mux.decoder.value;
      var fed := l.decoders[k].(input := l.decoders[k].input + [item.payload]);
      Some(l.(service := after, target := after, decoders := l.decoders[k := fed]))
    else None
  }

  function Next(l: Live, step: Step): Option<Live>
  {
    match step
    case Executes =>
      if !l.mux.service.Ready? then None
      else
        (match ReadInput(l.rest)
         case Item(item, rest) =>
           (match Execute(l.service, item)
            case Continue(after) => Start(l.(rest := rest), item, after)
            case _ => None)
         case _ => None)
    case Runs(event) =>
      if event.BindSpawnsDecoder? || event.ResetStarts? then None
      else
        match Mux.Next(l.mux, event)
        case None => None
        case Some(mux) =>
          Some(l.(mux := mux,
                  service := if mux.service.Ready? && !l.mux.service.Ready? then l.target else l.service,
                  inForce := if event.MuxWrites? then l.inForce + [InForce(l)] else l.inForce))
  }

  function Run(begin: Live, steps: seq<Step>): Option<Live>
    decreases |steps|
  {
    if steps == [] then Some(begin)
    else
      match Run(begin, steps[..|steps| - 1])
      case None => None
      case Some(before) => Next(before, steps[|steps| - 1])
  }

  // -------------------------------------------------------------- invariant

  /** The deliveries that the decoders' inputs, one after the other, make up. */
  function Fed(decoders: seq<Decoder>): seq<Delivery>
  {
    if decoders == [] then []
    else
      var last := decoders[|decoders| - 1];
      Fed(decoders[..|decoders| - 1]) + DeliveriesTo(last)
  }

  function DeliveriesTo(decoder: Decoder): (r: seq<Delivery>)
    ensures |r| == |decoder.input|
  {
    seq(|decoder.input|, i requires 0 <= i < |decoder.input| => Delivery(decoder.binding, decoder.input[i]))
  }

  predicate Binding(s: Mux.ServicePc)
  {
    s.BindSpawned? || s.BindCleared? || s.BindWaiting?
  }

  /** The mux knows the newest decoder, if any. */
  predicate NewestDecoder(l: Live)
  {
    && |l.decoders| == l.mux.spawned
    && (l.mux.decoder.Some? ==> l.mux.decoder.value == |l.decoders| - 1)
    && (l.mux.bound.Some? ==> l.mux.bound == l.mux.decoder)
    && (Binding(l.mux.service) ==> l.mux.bound.None? && l.mux.decoder.Some?)
  }

  /** The service is bound exactly when the mux is, to the binding of the newest decoder. */
  predicate BoundToNewest(l: Live)
    requires NewestDecoder(l)
  {
    && Bound(l.service) == (if l.mux.bound.Some? then Some(l.decoders[|l.decoders| - 1].binding) else None)
    && (l.mux.service.Ready? ==> l.target == l.service)
    && (Binding(l.mux.service) ==> Bound(l.target) == Some(l.decoders[|l.decoders| - 1].binding))
    && (!l.mux.service.Ready? && !Binding(l.mux.service) ==> l.target.validator.None?)
  }

  predicate AllFed(l: Live)
  {
    l.service.delivered == l.target.delivered == Fed(l.decoders)
  }

  predicate ShownInForce(l: Live)
  {
    && |l.inForce| == |l.mux.output|
    && forall i :: 0 <= i < |l.mux.output| && l.mux.output[i].frame.Some? ==>
         var source := l.mux.output[i].frame.value.source;
         source < |l.decoders| && l.inForce[i] == Some(l.decoders[source].binding)
  }

  predicate Linked(l: Live)
  {
    NewestDecoder(l) && BoundToNewest(l) && AllFed(l)
  }

  predicate Invariant(l: Live)
  {
    Mux.Invariant(l.mux) && Linked(l) && ShownInForce(l)
  }

  /** What a step of the mux system other than the first of a bind or reset does to the service thread. */
  lemma ThreadMoves(s: Mux.System, event: Mux.Event)
    requires Mux.Next(s, event).Some? && !event.BindSpawnsDecoder? && !event.ResetStarts?
    ensures var next := Mux.Next(s, event).value;
            && next.spawned == s.spawned
            && (|| (next.bound == s.bound && next.decoder == s.decoder
                    && next.service.Ready? == s.service.Ready? && Binding(next.service) == Binding(s.service))
                || (Binding(s.service) && next.service.Ready? && next.bound == next.decoder == s.decoder)
                || (!s.service.Ready? && !Binding(s.service) && next.service.Ready? && next.bound.None? && next.decoder.None?))
  {
    hide RawOutput.Pushed, RawOutput.Ticked, RawOutput.Chosen;
  }

  lemma RunningKeepsLinked(l: Live, event: Mux.Event)
    requires Linked(l) && Next(l, Runs(event)).Some?
    ensures Linked(Next(l, Runs(event)).value)
  {
    ThreadMoves(l.mux, event);
    hide Mux.Next, Fed, Binding;
  }

  /** A live frame about to be written comes from the newest decoder, whose binding is in force. */
  lemma WritingIsInForce(l: Live)
    requires Mux.Invariant(l.mux) && Linked(l) && l.mux.mux.Writing? && l.mux.mux.emission.frame.Some?
    ensures var source := l.mux.mux.emission.frame.value.source;
            source == |l.decoders| - 1 && InForce(l) == Some(l.decoders[source].binding)
  {
    hide Mux.OutputSafe, Mux.Ordered, Fed;
  }

  lemma RunningKeepsShown(l: Live, event: Mux.Event)
    requires Invariant(l) && Next(l, Runs(event)).Some?
    ensures ShownInForce(Next(l, Runs(event)).value)
  {
    if event.MuxWrites? {
      if l.mux.mux.Writing? && l.mux.mux.emission.frame.Some? {
        WritingIsInForce(l);
      }
      hide Mux.Invariant, Linked;
    } else {
      Mux.OnlyWritesWrite(l.mux, event);
      hide Mux.Next, Mux.Invariant, Linked;
    }
  }

  /** Giving a decoder one more payload adds one delivery under its binding. */
  lemma FeedingAdds(decoders: seq<Decoder>, payload: seq<byte>)
    requires decoders != []
    ensures var k := |decoders| - 1;
            Fed(decoders[k := decoders[k].(input := decoders[k].input + [payload])])
            == Fed(decoders) + [Delivery(decoders[k].binding, payload)]
  {
    var k := |decoders| - 1;
    var last := decoders[k].(input := decoders[k].input + [payload]);
    var fed := decoders[k := last];
    assert fed[..k] == decoders[..k];
    assert DeliveriesTo(last) == DeliveriesTo(decoders[k]) + [Delivery(decoders[k].binding, payload)];
  }

  lemma SpawningAdds(decoders: seq<Decoder>, binding: MediaBinding)
    ensures Fed(decoders + [Decoder(binding, [])]) == Fed(decoders)
  {
    assert (decoders + [Decoder(binding, [])])[..|decoders|] == decoders;
    assert DeliveriesTo(Decoder(binding, [])) == [];
  }

  /** What executing an item does to the service, without the details of validation. */
  lemma ExecutionKeepsBinding(state: ServiceState, item: ServiceInput)
    requires Execute(state, item).Continue?
    ensures var after := Execute(state, item).state;
            && (Binds(item).Some? ==> Bound(state).None? && Bound(after) == Binds(item) && after.delivered == state.delivered)
            && (Binds(item).None? && after.validator.None? ==> after.delivered == state.delivered)
            && (Binds(item).None? && after.validator.Some? ==>
                  && item.MediaRead? && Bound(state).Some? && Bound(after) == Bound(state)
                  && after.delivered == state.delivered + [Delivery(Bound(state).value, item.payload)])
  {
    hide ValidateHeader;
  }

  lemma StartingKeepsLinked(l: Live, item: ServiceInput, after: ServiceState)
    requires Linked(l) && l.mux.service.Ready? && Execute(l.service, item) == Continue(after) && Start(l, item, after).Some?
    ensures Linked(Start(l, item, after).value)
  {
    ExecutionKeepsBinding(l.service, item);
    hide Execute, Fed;
    if Binds(item).Some? {
      SpawningAdds(l.decoders, Binds(item).value);
    } else if after.validator.Some? {
      FeedingKeepsLinked(l, item, after);
    }
  }

  lemma FeedingKeepsLinked(l: Live, item: ServiceInput, after: ServiceState)
    requires Linked(l) && l.mux.service.Ready? && Binds(item).None? && after.validator.Some? && Start(l, item, after).Some?
    requires && item.MediaRead? && Bound(l.service).Some? && Bound(after) == Bound(l.service)
             && after.delivered == l.service.delivered + [Delivery(Bound(l.service).value, item.payload)]
    ensures Linked(Start(l, item, after).value)
  {
    hide Fed;
    FeedingAdds(l.decoders, item.payload);
  }

  lemma StartingKeepsRest(l: Live, item: ServiceInput, after: ServiceState)
    requires Invariant(l) && Start(l, item, after).Some?
    ensures var next := Start(l, item, after).value;
            && Mux.Invariant(next.mux) && ShownInForce(next) && next.rest == l.rest && next.target == after
  {
    if Binds(item).Some? {
      Mux.StepKeepsInvariant(l.mux, Mux.BindSpawnsDecoder);
      Mux.OnlyWritesWrite(l.mux, Mux.BindSpawnsDecoder);
    } else if after.validator.None? {
      Mux.StepKeepsInvariant(l.mux, Mux.ResetStarts);
      Mux.OnlyWritesWrite(l.mux, Mux.ResetStarts);
    }
    hide Mux.Next, Mux.Invariant, Linked;
  }

  lemma StepKeepsInvariant(l: Live, step: Step)
    requires Invariant(l) && Next(l, step).Some?
    ensures Invariant(Next(l, step).value)
  {
    match step
    case Executes =>
      var item, rest := ReadInput(l.rest).item, ReadInput(l.rest).rest;
      var after := Execute(l.service, item).state;
      StartingKeepsLinked(l.(rest := rest), item, after);
      StartingKeepsRest(l.(rest := rest), item, after);
      hide Start, Execute, ReadInput, Mux.Invariant, Linked, ShownInForce;
    case Runs(event) =>
      RunningKeepsLinked(l, event);
      RunningKeepsShown(l, event);
      Mux.StepKeepsInvariant(l.mux, event);
      hide Mux.Next, Mux.Invariant, Linked, ShownInForce;
  }

  /** What is left to execute gives the result of the whole input. */
  predicate OnTrack(l: Live, input: seq<byte>)
  {
    RunService(l.target, l.rest) == RunService(Unbound, input)
  }

  lemma StepKeepsTrack(l: Live, step: Step, input: seq<byte>)
    requires Invariant(l) && OnTrack(l, input) && Next(l, step).Some?
    ensures OnTrack(Next(l, step).value, input)
  {
    match step
    case Executes =>
      var item, rest := ReadInput(l.rest).item, ReadInput(l.rest).rest;
      StartingKeepsRest(l.(rest := rest), item, Execute(l.service, item).state);
      hide Start, Execute, ReadInput, Mux.Invariant, ShownInForce, AllFed, NewestDecoder;
    case Runs(event) =>
      hide RunService, Mux.Next;
  }

  lemma {:induction false} RunsKeepInvariant(input: seq<byte>, frameBytes: nat, steps: seq<Step>)
    requires Run(Begin(input, frameBytes), steps).Some?
    ensures var l := Run(Begin(input, frameBytes), steps).value; Invariant(l) && OnTrack(l, input)
    decreases |steps|
  {
    if steps == [] {
      hide RunService;
    } else {
      hide Invariant, OnTrack, Next, Begin;
      RunsKeepInvariant(input, frameBytes, steps[..|steps| - 1]);
      var l := Run(Begin(input, frameBytes), steps[..|steps| - 1]).value;
      StepKeepsInvariant(l, steps[|steps| - 1]);
      StepKeepsTrack(l, steps[|steps| - 1], input);
    }
  }

  /** Running on only adds deliveries. */
  lemma {:induction false} DeliveredGrows(state: ServiceState, input: seq<byte>)
    ensures state.delivered <= RunService(state, input).delivered
    decreases |input|
  {
    hide ReadInput;
    match ReadInput(input)
    case Item(item, rest) =>
      if Execute(state, item).Continue? {
        ExecutionKeepsBinding(state, item);
        hide Execute;
        DeliveredGrows(Execute(state, item).state, rest);
      }
    case _ =>
  }

  /** An item the service does not refuse can always be started when the thread is ready. */
  lemma StartIsEnabled(l: Live, item: ServiceInput)
    requires Linked(l) && l.mux.service.Ready? && Execute(l.service, item).Continue?
    ensures Start(l, item, Execute(l.service, item).state).Some?
  {
    ExecutionKeepsBinding(l.service, item);
    hide Execute, Fed;
  }

  /**
   * In every interleaving of the service thread with the decoder pump and the
   * mux: the decoders' inputs, in order, are exactly the payloads delivered so
   * far, each under its decoder's binding; a live frame on the output comes
   * from the decoder of the binding in force when it was written; and nothing
   * but what a run of the whole input delivers is ever delivered.
   */
  lemma LiveOutputExactly(input: seq<byte>, frameBytes: nat, steps: seq<Step>)
    requires Run(Begin(input, frameBytes), steps).Some?
    ensures var l := Run(Begin(input, frameBytes), steps).value;
            && l.service.delivered == Fed(l.decoders)
            && l.service.delivered <= RunService(Unbound, input).delivered
            && (l.rest == [] && l.mux.service.Ready? ==> RunService(Unbound, input) == ServiceResult(Pass, l.service.delivered))
            && ShownInForce(l) && (forall e :: e in l.mux.output ==> Mux.Legitimate(l.mux, e))
  {
    hide Run, Fed;
    RunsKeepInvariant(input, frameBytes, steps);
    var l := Run(Begin(input, frameBytes), steps).value;
    DeliveredGrows(l.target, l.rest);
  }

  /** While a live frame is being written, its decoder's input is exactly what was delivered since the binding in force was made. */
  lemma LiveFrameShowsDelivered(input: seq<byte>, frameBytes: nat, steps: seq<Step>)
    requires Run(Begin(input, frameBytes), steps).Some?
    requires var s := Run(Begin(input, frameBytes), steps).value.mux; s.mux.Writing? && s.mux.emission.frame.Some?
    ensures var l := Run(Begin(input, frameBytes), steps).value;
            var source := l.mux.mux.emission.frame.value.source;
            && source == |l.decoders| - 1
            && InForce(l) == Some(l.decoders[source].binding)
            && l.service.delivered == Fed(l.decoders[..source]) + DeliveriesTo(l.decoders[source])
  {
    hide Run;
    RunsKeepInvariant(input, frameBytes, steps);
    WritingIsInForce(Run(Begin(input, frameBytes), steps).value);
    hide Mux.Invariant;
  }

  /** A service thread that is ready executes the next item, or there is nothing left to deliver. */
  lemma StopsOnlyAtEnd(l: Live, input: seq<byte>)
    requires Invariant(l) && OnTrack(l, input) && RunService(Unbound, input).outcome.Pass?
    requires l.mux.service.Ready? && Next(l, Executes).None?
    ensures l.service.delivered == RunService(Unbound, input).delivered
  {
    hide ReadInput, Start, Mux.Invariant, Fed;
    if ReadInput(l.rest).Item? && Execute(l.service, ReadInput(l.rest).item).Continue? {
      StartIsEnabled(l.(rest := ReadInput(l.rest).rest), ReadInput(l.rest).item);
    }
  }

  /**
   * From the daemon's worker to the screen: whatever well-numbered calls left
   * in the pipe, the decoders are given payloads as they were written, in
   * order, each under its binding; and the service thread stops executing
   * only when they have been given all of them.
   */
  lemma WorkerToScreen(calls: seq<WorkerCall>, closing: bool, frameBytes: nat, steps: seq<Step>)
    requires Perform(calls).Some? && WellNumbered(calls)
    requires Run(Begin(Wire(calls, closing), frameBytes), steps).Some?
    ensures var l := Run(Begin(Wire(calls, closing), frameBytes), steps).value;
            && Fed(l.decoders) <= Deliveries(calls)
            && (l.mux.service.Ready? && Next(l, Executes).None? ==> Fed(l.decoders) == Deliveries(calls))
  {
    hide Run, Perform, Deliveries, WellNumbered, Fed, Next;
    var input := Wire(calls, closing);
    PipeDelivers(calls, closing);
    LiveOutputExactly(input, frameBytes, steps);
    RunsKeepInvariant(input, frameBytes, steps);
    var l := Run(Begin(input, frameBytes), steps).value;
    if l.mux.service.Ready? && Next(l, Executes).None? {
      StopsOnlyAtEnd(l, input);
    }
  }
}
