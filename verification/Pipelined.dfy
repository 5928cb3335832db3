/**
 * The service as it runs: a reader thread parses ahead of the executor and
 * hands items over through a channel of two. Every interleaving of the two
 * threads is compared with the sequential reference.
 */
module Pipelined {
  import opened Wrappers
  import opened Bytes
  import opened Service

  const CHANNEL_CAPACITY := 2

  datatype Message =
    | Input(item: ServiceInput)
    | End
    | Error(error: ServiceError)

  datatype ReaderThread =
    | Reading
    | Sending(message: Message)
    | Exited

  datatype Threads = Threads(
    unread: seq<byte>,
    reader: ReaderThread,
    channel: seq<Message>,
    service: ServiceState,
    result: Option<Outcome<ServiceError>>)

  datatype Event = ReaderReads | ReaderSends | ExecutorReceives

  function Start(input: seq<byte>): Threads
  {
    Threads(input, Reading, [], Unbound, None)
  }

  /** One step of one thread; None when that thread is blocked or has exited. */
  function Next(t: Threads, event: Event): Option<Threads>
  {
    match event
    case ReaderReads =>
      if !t.reader.Reading? then None
      else
        (match ReadInput(t.unread)
         case EndOfInput => Some(t.(reader := Sending(End)))
         case Malformed(error) => Some(t.(reader := Sending(Error(error))))
         case Item(item, rest) => Some(t.(reader := Sending(Input(item)), unread := rest)))
    case ReaderSends =>
      if !t.reader.Sending? then None
      else if t.result.Some? then Some(t.(reader := Exited))
      else if |t.channel| >= CHANNEL_CAPACITY then None
      else
        Some(t.(channel := t.channel + [t.reader.message],
                reader := if t.reader.message.Input? then Reading else Exited))
    case ExecutorReceives =>
      if t.result.Some? || t.channel == [] then None
      else
        var rest := t.(channel := t.channel[1..]);
        match t.channel[0]
        case End => Some(rest.(result := Some(Pass)))
        case Error(error) => Some(rest.(result := Some(Fail(error))))
        case Input(item) =>
          match Execute(t.service, item)
          case Continue(service) => Some(rest.(service := service))
          case Finished => Some(rest.(result := Some(Pass)))
          case Refused(error) => Some(rest.(result := Some(Fail(error))))
  }

  function Schedule(input: seq<byte>, events: seq<Event>): Option<Threads>
  {
    if events == [] then Some(Start(input))
    else
      match Schedule(input, events[..|events| - 1])
      case None => None
      case Some(t) => Next(t, events[|events| - 1])
  }

  /** What the executor will have done after these messages and then the unread input. */
  function Drain(service: ServiceState, messages: seq<Message>, unread: seq<byte>): ServiceResult
    decreases |messages|
  {
    if messages == [] then RunService(service, unread)
    else
      match messages[0]
      case End => ServiceResult(Pass, service.delivered)
      case Error(error) => ServiceResult(Fail(error), service.delivered)
      case Input(item) =>
        match Execute(service, item)
        case Continue(next) => Drain(next, messages[1..], unread)
        case Finished => ServiceResult(Pass, service.delivered)
        case Refused(error) => ServiceResult(Fail(error), service.delivered)
  }

  function Messages(t: Threads): seq<Message>
  {
    t.channel + if t.reader.Sending? then [t.reader.message] else []
  }

  /** The result this state is bound to reach. */
  function Outlook(t: Threads): ServiceResult
  {
    if t.result.Some? then ServiceResult(t.result.value, t.service.delivered)
    else Drain(t.service, Messages(t), t.unread)
  }

  predicate Invariant(t: Threads, input: seq<byte>)
  {
    && |t.channel| <= CHANNEL_CAPACITY
    && Outlook(t) == RunService(Unbound, input)
    && (t.reader.Exited? && t.result.None? ==> t.channel != [] && !t.channel[|t.channel| - 1].Input?)
  }

  /** The message the reader parses next says what the unread input says. */
  lemma {:induction false} DrainReads(service: ServiceState, messages: seq<Message>, unread: seq<byte>)
    ensures match ReadInput(unread)
            case EndOfInput => Drain(service, messages + [End], unread) == Drain(service, messages, unread)
            case Malformed(error) => Drain(service, messages + [Error(error)], unread) == Drain(service, messages, unread)
            case Item(item, rest) => Drain(service, messages + [Input(item)], rest) == Drain(service, messages, unread)
    decreases |messages|
  {
    hide Execute;
    hide ReadInput;
    if messages == [] {
      assert forall m: Message :: (messages + [m])[0] == m && (messages + [m])[1..] == [];
    } else {
      assert forall m: Message :: (messages + [m])[0] == messages[0] && (messages + [m])[1..] == messages[1..] + [m];
      if messages[0].Input? {
        match Execute(service, messages[0].item)
        case Continue(next) => DrainReads(next, messages[1..], unread);
        case Finished =>
        case Refused(_) =>
      }
    }
  }

  lemma StepKeepsInvariant(t: Threads, event: Event, input: seq<byte>)
    requires Invariant(t, input) && Next(t, event).Some?
    ensures Invariant(Next(t, event).value, input)
  {
    hide Execute;
    hide ReadInput;
    hide RunService;
    var next := Next(t, event).value;
    match event
    case ReaderReads =>
      DrainReads(t.service, t.channel, t.unread);
      assert Messages(t) == t.channel;
    case ReaderSends =>
      assert t.result.None? ==> Messages(next) == Messages(t);
    case ExecutorReceives =>
      assert Messages(t)[0] == t.channel[0] && Messages(t)[1..] == Messages(next);
  }

  /** Steps still possible: an item costs one read, one send and one receive. */
  function Remaining(t: Threads): nat
  {
    3 * (|t.unread| / 84) + |t.channel| +
    match t.reader
    case Reading => 3
    case Sending(Input(_)) => 5
    case Sending(_) => 2
    case Exited => 0
  }

  lemma StepsRunOut(t: Threads, event: Event)
    requires Next(t, event).Some?
    ensures Remaining(Next(t, event).value) < Remaining(t)
  {
    hide Execute;
    if event.ReaderReads? && ReadInput(t.unread).Item? {
      var rest := ReadInput(t.unread).rest;
      ConsumesOne(|t.unread|, |rest|);
    }
  }

  lemma ConsumesOne(before: nat, after: nat)
    requires after + 84 <= before
    ensures after / 84 + 1 <= before / 84
  {
  }

  lemma NeverStuck(t: Threads, input: seq<byte>)
    requires Invariant(t, input) && t.result.None?
    ensures exists event :: Next(t, event).Some?
  {
    if t.reader.Reading? {
      assert Next(t, ReaderReads).Some?;
    } else if |t.channel| < CHANNEL_CAPACITY && t.reader.Sending? {
      assert Next(t, ReaderSends).Some?;
    } else {
      assert Next(t, ExecutorReceives).Some?;
    }
  }

  /**
   * Every interleaving is finite, cannot block before the service returns, and
   * returns the outcome and the decoder payloads of running the input in
   * sequence, which are those of the reference loop.
   */
  lemma {:induction false} PipelinedAgrees(input: seq<byte>, events: seq<Event>)
    requires Schedule(input, events).Some?
    ensures var t := Schedule(input, events).value;
            && |events| <= 3 * (|input| / 84) + 3
            && |t.channel| <= CHANNEL_CAPACITY
            && (t.result.None? ==> exists event :: Next(t, event).Some?)
            && (t.result.Some? ==>
                  var result := ServiceResult(t.result.value, t.service.delivered);
                  result == RunService(Unbound, input) && Agree(result, ForwardService(Unbound, input)))
  {
    hide RunService;
    hide ForwardService;
    hide Next;
    hide Drain;
    ScheduleKeepsInvariant(input, events);
    if Schedule(input, events).value.result.None? {
      NeverStuck(Schedule(input, events).value, input);
    }
    ReadAheadAgrees(Unbound, input);
  }

  lemma {:induction false} ScheduleKeepsInvariant(input: seq<byte>, events: seq<Event>)
    requires Schedule(input, events).Some?
    ensures Invariant(Schedule(input, events).value, input)
    ensures |events| + Remaining(Schedule(input, events).value) <= 3 * (|input| / 84) + 3
  {
    hide RunService;
    hide Next;
    if events != [] {
      var before := events[..|events| - 1];
      ScheduleKeepsInvariant(input, before);
      hide Invariant;
      StepKeepsInvariant(Schedule(input, before).value, events[|events| - 1], input);
      StepsRunOut(Schedule(input, before).value, events[|events| - 1]);
    }
  }
}
