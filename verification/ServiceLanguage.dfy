/**
 * Which inputs the output service runs through without an error: the printed
 * commands and records of bindings that follow one another, each with a legal
 * stream, up to the end of the input or a shutdown.
 */
module ServiceLanguage {
  import opened Wrappers
  import opened Bytes
  import opened Media
  import opened Validator
  import opened Service
  import OutputWorker

  /** What a writer puts into the pipe. */
  datatype Entry =
    | Command(command: OutputControlCommand)
    | Sent(binding: MediaBinding, record: MediaRecord)

  function EntryBytes(entry: Entry): seq<byte>
  {
    match entry
    case Command(command) => ControlBytes(command)
    case Sent(binding, record) => if Writable(record) then RecordBytes(binding, record) else []
  }

  function Text(entries: seq<Entry>): seq<byte>
  {
    if entries == [] then [] else Text(entries[..|entries| - 1]) + EntryBytes(entries[|entries| - 1])
  }

  // --------------------------------------------------------------- legality

  /** A binding and the records sent under it so far. */
  datatype Session = Session(binding: MediaBinding, records: seq<MediaRecord>)

  /** The session that is open: bound, with no reset and no Stop since. */
  function Open(entries: seq<Entry>): Option<Session>
  {
    if entries == [] then None
    else
      var before := Open(entries[..|entries| - 1]);
      match entries[|entries| - 1]
      case Command(Bind(binding)) => Some(Session(binding, []))
      case Command(_) => None
      case Sent(_, record) =>
        if record.kind.StopRecord? || before.None? then None
        else Some(before.value.(records := before.value.records + [record]))
  }

  /** What may come after `before`: a bind when nothing is open, a reset of what is, and a record that keeps its stream legal. */
  predicate May(before: seq<Entry>, entry: Entry)
  {
    var open := Open(before);
    match entry
    case Command(Bind(binding)) => open.None? && binding.generation != 0
    case Command(Reset(binding)) => (open.None? || open.value.binding == binding) && binding.generation != 0
    case Command(Shutdown) => false
    case Sent(binding, record) => open.Some? && open.value.binding == binding && LegalStream(open.value.records + [record])
  }

  predicate Legal(entries: seq<Entry>)
  {
    forall i :: 0 <= i < |entries| ==> May(entries[..i], entries[i])
  }

  /** The payloads for the decoder, each under its binding. */
  function DeliveriesOf(entries: seq<Entry>): seq<Delivery>
  {
    if entries == [] then []
    else
      var last := entries[|entries| - 1];
      DeliveriesOf(entries[..|entries| - 1])
      + if last.Sent? && last.record.kind.H264AccessUnit? then [Delivery(last.binding, last.record.payload)] else []
  }

  /** `input` is the printed form of `entries`, up to its end or to a shutdown. */
  predicate Prints(entries: seq<Entry>, input: seq<byte>)
  {
    var text := Text(entries);
    input == text || (|input| >= |text| + 84 && input[..|text| + 84] == text + ControlBytes(Shutdown))
  }

  // ------------------------------------------------------------ one more entry

  /** The service state after `entries`. */
  function StateOf(entries: seq<Entry>): ServiceState
  {
    ServiceState(
      if Open(entries).None? then None
      else Some(CommittedAll(NewValidator(Open(entries).value.binding), Open(entries).value.records)),
      DeliveriesOf(entries))
  }

  /** The records of an open session are access units of a legal stream. */
  predicate OpenIsLegal(entries: seq<Entry>)
  {
    Open(entries).Some? ==>
      var open := Open(entries).value;
      && LegalStream(open.records)
      && (forall i :: 0 <= i < |open.records| ==> open.records[i].kind.H264AccessUnit?)
      && CommittedAll(NewValidator(open.binding), open.records).binding == open.binding
  }

  lemma {:induction false} BindingStays(v: ValidatorState, records: seq<MediaRecord>)
    ensures CommittedAll(v, records).binding == v.binding
    decreases |records|
  {
    if records != [] {
      BindingStays(Committed(v, records[0]), records[1..]);
    }
  }

  lemma LegalGrows(entries: seq<Entry>, entry: Entry)
    ensures Legal(entries + [entry]) <==> Legal(entries) && May(entries, entry)
  {
    hide May;
    var all := entries + [entry];
    assert all[..|entries|] == entries && all[|entries|] == entry;
    assert forall i :: 0 <= i < |entries| ==> all[..i] == entries[..i] && all[i] == entries[i];
  }

  lemma {:induction false} OpenStaysLegal(entries: seq<Entry>)
    requires Legal(entries)
    ensures OpenIsLegal(entries)
  {
    if entries != [] {
      var front, last := entries[..|entries| - 1], entries[|entries| - 1];
      assert front + [last] == entries;
      LegalGrows(front, last);
      hide Legal;
      OpenStaysLegal(front);
      if Open(entries).Some? {
        BindingStays(NewValidator(Open(entries).value.binding), Open(entries).value.records);
      }
    }
  }

  /** A record keeps the open stream legal exactly when the validator takes it. */
  lemma RecordMay(before: seq<Entry>, record: MediaRecord)
    requires Legal(before) && Open(before).Some?
    ensures var open := Open(before).value;
            LegalStream(open.records + [record]) <==> Follows(CommittedAll(NewValidator(open.binding), open.records), record)
  {
    hide Follows, LegalStream, Legal, Committed;
    var open := Open(before).value;
    OpenStaysLegal(before);
    NextCommits(NewValidator(open.binding), open.records, record);
    FreshStreamLegal(open.binding, open.records);
    FreshStreamLegal(open.binding, open.records + [record]);
  }


  lemma OpenNext(before: seq<Entry>, entry: Entry)
    ensures Text(before + [entry]) == Text(before) + EntryBytes(entry)
    ensures DeliveriesOf(before + [entry]) ==
            DeliveriesOf(before)
            + if entry.Sent? && entry.record.kind.H264AccessUnit? then [Delivery(entry.binding, entry.record.payload)] else []
    ensures Open(before + [entry]) ==
            match entry
            case Command(Bind(binding)) => Some(Session(binding, []))
            case Command(_) => None
            case Sent(_, record) =>
              if record.kind.StopRecord? || Open(before).None? then None
              else Some(Open(before).value.(records := Open(before).value.records + [record]))
  {
    assert (before + [entry])[..|before|] == before;
  }

  lemma CommandExecutes(before: seq<Entry>, command: OutputControlCommand)
    requires Legal(before) && Issuable(command) && !command.Shutdown?
    ensures Execute(StateOf(before), Control(command)) ==
            if May(before, Command(command)) then Continue(StateOf(before + [Command(command)]))
            else if command.Bind? then Refused(BindNeedsReset) else Refused(ResetOfOther)
  {
    hide Open, DeliveriesOf, Text, Legal, LegalStream;
    OpenNext(before, Command(command));
    OpenStaysLegal(before);
    assert DeliveriesOf(before) + [] == DeliveriesOf(before);
    if command.Bind? {
      assert CommittedAll(NewValidator(command.binding), []) == NewValidator(command.binding);
    }
  }

  /** A record that the open session takes is executed. */
  lemma RecordExecutes(before: seq<Entry>, binding: MediaBinding, record: MediaRecord)
    requires Legal(before) && May(before, Sent(binding, record))
    ensures Writable(record)
    ensures Execute(StateOf(before), MediaRead(RecordHeader(binding, record), record.payload))
         == Continue(StateOf(before + [Sent(binding, record)]))
  {
    hide Open, DeliveriesOf, Text, Legal, LegalStream, Execute, RecordHeader, Writable;
    var open := Open(before).value;
    OpenNext(before, Sent(binding, record));
    OpenStaysLegal(before);
    RecordMay(before, record);
    FollowingIsWritable(CommittedAll(NewValidator(open.binding), open.records), record);
    OutputWorker.ExecutesRecord(StateOf(before), binding, record);
    NextCommits(NewValidator(open.binding), open.records, record);
    hide Follows, Committed;
    assert DeliveriesOf(before) + [] == DeliveriesOf(before);
  }

  lemma FollowingIsWritable(v: ValidatorState, record: MediaRecord)
    requires Follows(v, record)
    ensures Writable(record)
  {
  }

  lemma EntryRuns(before: seq<Entry>, entry: Entry, rest: seq<byte>)
    requires Legal(before) && May(before, entry)
    ensures RunService(StateOf(before), EntryBytes(entry) + rest) == RunService(StateOf(before + [entry]), rest)
  {
    hide Open, DeliveriesOf, Text, Legal, LegalStream, Execute, RecordHeader, ReadInput, StateOf, ControlBytes, RecordBytes;
    match entry
    case Command(command) =>
      CommandExecutes(before, command);
      OutputWorker.ReadsControl(command, rest);
    case Sent(binding, record) =>
      RecordExecutes(before, binding, record);
      OutputWorker.ReadsRecord(binding, record, rest);
  }

  /** Printed entries run, and leave the rest of the input to the state they lead to. */
  lemma {:induction false} TextRuns(entries: seq<Entry>, rest: seq<byte>)
    requires Legal(entries)
    ensures RunService(Unbound, Text(entries) + rest) == RunService(StateOf(entries), rest)
  {
    hide RunService, May, Legal, EntryBytes;
    if entries == [] {
      assert [] + rest == rest;
    } else {
      var front, last := entries[..|entries| - 1], entries[|entries| - 1];
      assert front + [last] == entries;
      LegalGrows(front, last);
      TextRuns(front, EntryBytes(last) + rest);
      EntryRuns(front, last, rest);
      assert Text(entries) + rest == Text(front) + (EntryBytes(last) + rest);
    }
  }

  /** What the service continues with was printed by an entry that may come next. */
  lemma ExecutedWasPrinted(before: seq<Entry>, input: seq<byte>) returns (entry: Entry)
    requires Legal(before) && ReadInput(input).Item? && Execute(StateOf(before), ReadInput(input).item).Continue?
    ensures May(before, entry) && input == EntryBytes(entry) + ReadInput(input).rest
  {
    match ReadInput(input).item
    case Control(command) =>
      entry := Command(command);
      ControlWasPrinted(input);
      hide ReadInput, Open, LegalStream, Legal, EntryBytes;
      CommandExecutes(before, command);
    case MediaRead(header, payload) =>
      entry := RecordWasPrinted(before, header, payload);
      MediaWasRead(input);
      hide ReadInput, Open, LegalStream, Legal, StateOf, Execute;
  }

  lemma ControlWasPrinted(input: seq<byte>)
    requires ReadInput(input).Item? && ReadInput(input).item.Control?
    ensures var command := ReadInput(input).item.command;
            Issuable(command) && input == ControlBytes(command) + ReadInput(input).rest
  {
    hide ParseOutputControl, ControlBytes;
    ControlRoundTrip(input[..84], ReadInput(input).item.command);
    assert input == input[..84] + input[84..];
  }

  lemma MediaWasRead(input: seq<byte>)
    requires ReadInput(input).Item? && ReadInput(input).item.MediaRead?
    ensures input == ReadInput(input).item.header + ReadInput(input).item.payload + ReadInput(input).rest
  {
    hide ParseOutputControl;
    var length := |ReadInput(input).item.payload|;
    assert input == input[..104] + input[104..104 + length] + input[104 + length..];
  }

  lemma RecordWasPrinted(before: seq<Entry>, header: MediaHeader, payload: seq<byte>) returns (entry: Entry)
    requires Legal(before) && Execute(StateOf(before), MediaRead(header, payload)).Continue?
    ensures May(before, entry) && EntryBytes(entry) == header + payload
  {
    hide Open, DeliveriesOf, LegalStream, Legal, ValidateHeader, RecordHeader;
    OpenStaysLegal(before);
    var open := Open(before).value;
    var v := CommittedAll(NewValidator(open.binding), open.records);
    var pending := ValidateHeader(v, header).value;
    FinishAccepted(v, header, payload);
    var record := FinishRecord(v, pending, payload).value.0;
    RecordMay(before, record);
    entry := Sent(open.binding, record);
  }

  lemma {:induction false} AcceptedIsPrinted(before: seq<Entry>, input: seq<byte>) returns (entries: seq<Entry>)
    requires Legal(before) && RunService(StateOf(before), input).outcome.Pass?
    ensures Legal(entries) && Prints(entries, Text(before) + input)
    decreases |input|
  {
    hide May, Legal, Execute, EntryBytes, StateOf, Text, ControlBytes, ReadInput;
    if ReadInput(input).EndOfInput? {
      NothingLeft(input);
      entries := before;
      assert Text(before) + [] == Text(before);
    } else if Execute(StateOf(before), ReadInput(input).item).Finished? {
      FinishedWasShutdown(before, input);
      entries := before;
      assert (Text(before) + input)[..|Text(before)| + 84] == Text(before) + input[..84];
    } else {
      var entry := ExecutedWasPrinted(before, input);
      var rest := ReadInput(input).rest;
      LegalGrows(before, entry);
      OpenNext(before, entry);
      EntryRuns(before, entry, rest);
      entries := AcceptedIsPrinted(before + [entry], rest);
      assert Text(before) + input == Text(before + [entry]) + rest;
    }
  }

  lemma NothingLeft(input: seq<byte>)
    requires ReadInput(input).EndOfInput?
    ensures input == []
  {
    hide ParseOutputControl;
  }

  lemma FinishedWasShutdown(before: seq<Entry>, input: seq<byte>)
    requires ReadInput(input).Item? && Execute(StateOf(before), ReadInput(input).item).Finished?
    ensures |input| >= 84 && input[..84] == ControlBytes(Shutdown)
  {
    assert ReadInput(input).item.Control? by {
      hide ReadInput, ValidateHeader;
    }
    ControlWasPrinted(input);
    hide ReadInput, ControlBytes;
    assert input[..84] == ControlBytes(Shutdown);
  }

  lemma ShutdownEnds(state: ServiceState, rest: seq<byte>)
    ensures RunService(state, ControlBytes(Shutdown) + rest) == ServiceResult(Pass, state.delivered)
  {
    hide ControlBytes, ReadInput;
    OutputWorker.ReadsControl(Shutdown, rest);
  }

  lemma PrintedIsAccepted(entries: seq<Entry>, input: seq<byte>)
    requires Legal(entries) && Prints(entries, input)
    ensures RunService(Unbound, input) == ServiceResult(Pass, DeliveriesOf(entries))
  {
    hide Legal, Text, ControlBytes, RunService;
    var text := Text(entries);
    if input == text {
      TextRuns(entries, []);
      assert text + [] == input;
      EmptyEnds(StateOf(entries));
    } else {
      var rest := input[|text| + 84..];
      TextRuns(entries, ControlBytes(Shutdown) + rest);
      ShutdownEnds(StateOf(entries), rest);
      assert input == text + (ControlBytes(Shutdown) + rest) by {
        assert input == input[..|text| + 84] + rest;
      }
    }
  }

  lemma EmptyEnds(state: ServiceState)
    ensures RunService(state, []) == ServiceResult(Pass, state.delivered)
  {
  }

  /**
   * The service runs through an input without an error exactly when it is the
   * printed form of a legal list of entries, up to its end or a shutdown; the
   * decoder then gets the payloads of their access units, in order.
   */
  lemma ServiceExactly(input: seq<byte>)
    ensures RunService(Unbound, input).outcome.Pass? <==> exists entries :: Legal(entries) && Prints(entries, input)
    ensures ForwardService(Unbound, input).outcome.Pass? <==> exists entries :: Legal(entries) && Prints(entries, input)
    ensures forall entries :: Legal(entries) && Prints(entries, input) ==>
              RunService(Unbound, input).delivered == ForwardService(Unbound, input).delivered == DeliveriesOf(entries)
  {
    hide RunService, ForwardService, Legal, Prints, DeliveriesOf, StateOf, Text;
    ReadAheadAgrees(Unbound, input);
    forall entries | Legal(entries) && Prints(entries, input)
      ensures RunService(Unbound, input) == ServiceResult(Pass, DeliveriesOf(entries))
    {
      PrintedIsAccepted(entries, input);
    }
    if RunService(Unbound, input).outcome.Pass? {
      NothingIsOpen();
      var entries := AcceptedIsPrinted([], input);
      assert [] + input == input;
    }
  }

  lemma NothingIsOpen()
    ensures Legal([]) && StateOf([]) == Unbound && Text([]) == []
  {
  }
}
