/**
 * The output service: one private pipe carries fixed-size commands and media
 * records. `Run` reads an item and then executes it; `Forward` checks each
 * media header before it reads the payload.
 */
module Service {
  import opened Wrappers
  import opened Bytes
  import opened Media
  import opened Validator

  type MediaHeader = s: seq<byte> | |s| == MEDIA_HEADER_BYTES witness Zeros(MEDIA_HEADER_BYTES)

  datatype ServiceInput =
    | Control(command: OutputControlCommand)
    | MediaRead(header: MediaHeader, payload: seq<byte>)

  datatype ServiceError =
    | TruncatedInput | UnknownMagic | PayloadTooLarge
    | BadCommand(control: OutputControlError)
    | BadMedia(media: MediaError)
    | BindNeedsReset | ResetOfOther | MediaBeforeBind

  datatype InputOutcome =
    | Item(item: ServiceInput, rest: seq<byte>)
    | EndOfInput
    | Malformed(error: ServiceError)

  /** One `read_service_input` on a pipe that holds exactly `input`. */
  function ReadInput(input: seq<byte>): (r: InputOutcome)
    ensures r.Item? ==> |r.rest| + OUTPUT_CONTROL_HEADER_BYTES <= |input|
  {
    if input == [] then EndOfInput
    else if |input| < 8 then Malformed(TruncatedInput)
    else if input[..8] == MEDIA_MAGIC then
      if |input| < MEDIA_HEADER_BYTES then Malformed(TruncatedInput)
      else
        var header := input[..MEDIA_HEADER_BYTES];
        var length := ReadU32(header[100..104]);
        if length > MAX_H264_ACCESS_UNIT_BYTES then Malformed(PayloadTooLarge)
        else if |input| - MEDIA_HEADER_BYTES < length then Malformed(TruncatedInput)
        else Item(MediaRead(header, input[MEDIA_HEADER_BYTES..MEDIA_HEADER_BYTES + length]),
                  input[MEDIA_HEADER_BYTES + length..])
    else if input[..8] != OUTPUT_CONTROL_MAGIC then Malformed(UnknownMagic)
    else if |input| < OUTPUT_CONTROL_HEADER_BYTES then Malformed(TruncatedInput)
    else
      match ParseOutputControl(input[..OUTPUT_CONTROL_HEADER_BYTES])
      case Ok(command) => Item(Control(command), input[OUTPUT_CONTROL_HEADER_BYTES..])
      case Err(error) => Malformed(BadCommand(error))
  }

  /** A payload handed to the decoder, with the binding it was handed over under. */
  datatype Delivery = Delivery(binding: MediaBinding, payload: seq<byte>)

  datatype ServiceState = ServiceState(validator: Option<ValidatorState>, delivered: seq<Delivery>)

  const Unbound := ServiceState(None, [])

  datatype Execution =
    | Continue(state: ServiceState)
    | Finished
    | Refused(error: ServiceError)

  function Bound(state: ServiceState): Option<MediaBinding>
  {
    if state.validator.Some? then Some(state.validator.value.binding) else None
  }

  function ExecuteCommand(state: ServiceState, command: OutputControlCommand): Execution
  {
    match command
    case Bind(binding) =>
      if state.validator.Some? then Refused(BindNeedsReset)
      else Continue(state.(validator := Some(NewValidator(binding))))
    case Reset(binding) =>
      if state.validator.Some? && state.validator.value.binding != binding then Refused(ResetOfOther)
      else Continue(state.(validator := None))
    case Shutdown => Finished
  }

  /** A committed record: Stop unbinds, an access unit goes to the decoder. */
  function ExecuteRecord(state: ServiceState, record: MediaRecord, after: ValidatorState): ServiceState
  {
    match record.kind
    case StopRecord => state.(validator := None)
    case H264AccessUnit =>
      ServiceState(Some(after), state.delivered + [Delivery(after.binding, record.payload)])
  }

  function Execute(state: ServiceState, item: ServiceInput): Execution
  {
    match item
    case Control(command) => ExecuteCommand(state, command)
    case MediaRead(header, payload) =>
      if state.validator.None? then Refused(MediaBeforeBind)
      else
        var validator := state.validator.value;
        match ValidateHeader(validator, header)
        case Err(error) => Refused(BadMedia(error))
        case Ok(pending) =>
          match FinishRecord(validator, pending, payload)
          case Err(error) => Refused(BadMedia(error))
          case Ok((record, after)) => Continue(ExecuteRecord(state, record, after))
  }

  /** How a run over a whole input ends, and what the decoder got. */
  datatype ServiceResult = ServiceResult(outcome: Outcome<ServiceError>, delivered: seq<Delivery>)

  /** Read an item, execute it, and so on. */
  function RunService(state: ServiceState, input: seq<byte>): (r: ServiceResult)
    decreases |input|
  {
    match ReadInput(input)
    case EndOfInput => ServiceResult(Pass, state.delivered)
    case Malformed(error) => ServiceResult(Fail(error), state.delivered)
    case Item(item, rest) =>
      match Execute(state, item)
      case Continue(next) => RunService(next, rest)
      case Finished => ServiceResult(Pass, state.delivered)
      case Refused(error) => ServiceResult(Fail(error), state.delivered)
  }

  /** The sequential reference: media headers are validated before their payload is read. */
  function ForwardService(state: ServiceState, input: seq<byte>): (r: ServiceResult)
    decreases |input|
  {
    if input == [] then ServiceResult(Pass, state.delivered)
    else if |input| < 8 then ServiceResult(Fail(TruncatedInput), state.delivered)
    else if input[..8] == MEDIA_MAGIC then
      if |input| < MEDIA_HEADER_BYTES then ServiceResult(Fail(TruncatedInput), state.delivered)
      else if state.validator.None? then ServiceResult(Fail(MediaBeforeBind), state.delivered)
      else
        match ValidateHeader(state.validator.value, input[..MEDIA_HEADER_BYTES])
        case Err(error) => ServiceResult(Fail(BadMedia(error)), state.delivered)
        case Ok(pending) =>
          var end := MEDIA_HEADER_BYTES + pending.payloadLength;
          if |input| < end then ServiceResult(Fail(TruncatedInput), state.delivered)
          else
            match FinishRecord(state.validator.value, pending, input[MEDIA_HEADER_BYTES..end])
            case Err(error) => ServiceResult(Fail(BadMedia(error)), state.delivered)
            case Ok((record, after)) => ForwardService(ExecuteRecord(state, record, after), input[end..])
    else if input[..8] != OUTPUT_CONTROL_MAGIC then ServiceResult(Fail(UnknownMagic), state.delivered)
    else if |input| < OUTPUT_CONTROL_HEADER_BYTES then ServiceResult(Fail(TruncatedInput), state.delivered)
    else
      match ParseOutputControl(input[..OUTPUT_CONTROL_HEADER_BYTES])
      case Err(error) => ServiceResult(Fail(BadCommand(error)), state.delivered)
      case Ok(command) =>
        match ExecuteCommand(state, command)
        case Continue(next) => ForwardService(next, input[OUTPUT_CONTROL_HEADER_BYTES..])
        case Finished => ServiceResult(Pass, state.delivered)
        case Refused(error) => ServiceResult(Fail(error), state.delivered)
  }

  /** The same ending up to which error is reported. */
  predicate Agree(x: ServiceResult, y: ServiceResult)
  {
    x.delivered == y.delivered && (x.outcome.Pass? <==> y.outcome.Pass?)
  }

  lemma ValidatedLength(v: ValidatorState, header: seq<byte>)
    requires |header| == MEDIA_HEADER_BYTES && ValidateHeader(v, header).Ok?
    ensures ValidateHeader(v, header).value.payloadLength == ReadU32(header[100..104]) <= MAX_H264_ACCESS_UNIT_BYTES
  {
  }

  /**
   * Reading payloads ahead of validation changes neither what the decoder gets
   * nor whether the run succeeds; only the reported error can differ.
   */
  lemma {:induction false} ReadAheadAgrees(state: ServiceState, input: seq<byte>)
    ensures Agree(RunService(state, input), ForwardService(state, input))
    decreases |input|
  {
    hide ValidateHeader;
    hide ParseOutputControl;
    hide ReadU32;
    hide FinishRecord;
    hide ExecuteCommand;
    hide ExecuteRecord;
    if |input| >= 8 {
      if input[..8] == MEDIA_MAGIC {
        if |input| >= MEDIA_HEADER_BYTES && state.validator.Some? {
          var header := input[..MEDIA_HEADER_BYTES];
          if ValidateHeader(state.validator.value, header).Ok? {
            ValidatedLength(state.validator.value, header);
          }
        }
      }
      match ReadInput(input) {
        case Item(item, rest) =>
          match Execute(state, item) {
            case Continue(next) => ReadAheadAgrees(next, rest);
            case Finished =>
            case Refused(_) =>
          }
        case EndOfInput =>
        case Malformed(_) =>
      }
    }
  }

  // ------------------------------------------------------------ the service

  /** Reads the 8-byte marker of the next item; 0 bytes is the end of the input. */
  method ReadPrefix(reader: Reader) returns (r: Result<Option<seq<byte>>, ServiceError>)
    modifies reader
    ensures old(reader.rest) == [] ==> r == Ok(None)
    ensures 0 < |old(reader.rest)| < 8 ==> r == Err(TruncatedInput)
    ensures |old(reader.rest)| >= 8 ==> r == Ok(Some(old(reader.rest)[..8])) && reader.rest == old(reader.rest)[8..]
  {
    ghost var input := reader.rest;
    var prefix := new byte[8](i => 0);
    var count := reader.ReadFirst(prefix);
    if count == 0 {
      return Ok(None);
    }
    var ok := reader.ReadExact(prefix, 1);
    if !ok {
      return Err(TruncatedInput);
    }
    assert prefix[..] == input[..8];
    r := Ok(Some(prefix[..]));
  }

  /** Reads the rest of a header of `length` bytes whose first 8 bytes are `prefix`. */
  method ReadHeader(reader: Reader, prefix: seq<byte>, length: nat) returns (r: Option<array<byte>>)
    requires |prefix| == 8 && length >= 8
    modifies reader
    ensures |old(reader.rest)| < length - 8 ==> r.None?
    ensures |old(reader.rest)| >= length - 8 ==>
              && r.Some? && fresh(r.value) && r.value.Length == length
              && r.value[..] == (prefix + old(reader.rest))[..length]
              && reader.rest == old(reader.rest)[length - 8..]
  {
    var header := new byte[length](i => 0);
    CopyFromSlice(header, 0, prefix);
    var ok := reader.ReadExact(header, 8);
    if !ok {
      return None;
    }
    r := Some(header);
  }

  method ReadServiceInput(reader: Reader) returns (r: Result<Option<ServiceInput>, ServiceError>)
    modifies reader
    ensures match ReadInput(old(reader.rest))
            case EndOfInput => r == Ok(None)
            case Malformed(error) => r == Err(error)
            case Item(item, rest) => r == Ok(Some(item)) && reader.rest == rest
  {
    hide ParseOutputControl;
    hide ReadU32;
    ghost var input := reader.rest;
    var prefixed := ReadPrefix(reader);
    if prefixed.Err? {
      return Err(prefixed.error);
    }
    if prefixed.value.None? {
      return Ok(None);
    }
    var prefix := prefixed.value.value;
    assert input == prefix + reader.rest;
    if prefix == MEDIA_MAGIC {
      var filled := ReadHeader(reader, prefix, 104);
      if filled.None? {
        return Err(TruncatedInput);
      }
      var header := filled.value;
      var payloadLength := ReadU32(header[100..104]);
      if payloadLength > MAX_H264_ACCESS_UNIT_BYTES {
        return Err(PayloadTooLarge);
      }
      assert header[..][100..104] == header[100..104];
      var payload := new byte[payloadLength](i => 0);
      var ok := reader.ReadExact(payload, 0);
      if !ok {
        return Err(TruncatedInput);
      }
      assert payload[..] == input[MEDIA_HEADER_BYTES..MEDIA_HEADER_BYTES + payloadLength];
      return Ok(Some(MediaRead(header[..], payload[..])));
    }
    if prefix != OUTPUT_CONTROL_MAGIC {
      return Err(UnknownMagic);
    }
    var filled := ReadHeader(reader, prefix, 84);
    if filled.None? {
      return Err(TruncatedInput);
    }
    match ParseOutputControl(filled.value[..]) {
      case Ok(command) => r := Ok(Some(Control(command)));
      case Err(error) => r := Err(BadCommand(error));
    }
  }

  /** The validator of the active binding and the decoder behind it. */
  class ServiceOutput {
    var binding: Option<MediaBinding>
    var validator: Option<MediaStreamValidator>
    var delivered: seq<Delivery>

    ghost predicate Valid()
      reads this, if validator.Some? then {validator.value} else {}
    {
      && (binding.Some? <==> validator.Some?)
      && (binding.Some? ==> binding.value == validator.value.binding)
    }

    ghost function State(): ServiceState
      reads this, if validator.Some? then {validator.value} else {}
    {
      ServiceState(if validator.Some? then Some(validator.value.State()) else None, delivered)
    }

    constructor ()
      ensures Valid() && State() == Unbound && validator.None?
    {
      binding, validator, delivered := None, None, [];
    }

    method BindTo(next: MediaBinding) returns (r: Outcome<ServiceError>)
      requires Valid()
      modifies this
      ensures Valid()
      ensures match ExecuteCommand(old(State()), Bind(next))
              case Continue(after) => r == Pass && State() == after && fresh(validator.value)
              case Refused(error) => r == Fail(error) && State() == old(State()) && validator == old(validator)
              case Finished => false
    {
      if binding.Some? {
        return Fail(BindNeedsReset);
      }
      var created := new MediaStreamValidator(next);
      binding, validator := Some(next), Some(created);
      r := Pass;
    }

    method ResetTo(current: MediaBinding) returns (r: Outcome<ServiceError>)
      requires Valid()
      modifies this
      ensures Valid()
      ensures match ExecuteCommand(old(State()), Reset(current))
              case Continue(after) => r == Pass && State() == after && validator.None?
              case Refused(error) => r == Fail(error) && State() == old(State()) && validator == old(validator)
              case Finished => false
    {
      if binding.Some? && binding.value != current {
        return Fail(ResetOfOther);
      }
      binding, validator := None, None;
      r := Pass;
    }

    /** Executes one item; true means the service was told to shut down. */
    method ExecuteItem(item: ServiceInput) returns (r: Result<bool, ServiceError>)
      requires Valid()
      modifies this, if validator.Some? then {validator.value} else {}
      ensures Valid()
      ensures validator.Some? && validator != old(validator) ==> fresh(validator.value)
      ensures delivered == match Execute(old(State()), item)
                           case Continue(after) => after.delivered
                           case _ => old(delivered)
      ensures match Execute(old(State()), item)
              case Continue(after) => r == Ok(false) && State() == after
              case Finished => r == Ok(true)
              case Refused(error) => r == Err(error)
    {
      hide ValidateHeader;
      match item {
        case Control(Bind(next)) =>
          var bound := BindTo(next);
          r := if bound.Pass? then Ok(false) else Err(bound.error);
        case Control(Reset(current)) =>
          var reset := ResetTo(current);
          r := if reset.Pass? then Ok(false) else Err(reset.error);
        case Control(Shutdown) =>
          r := Ok(true);
        case MediaRead(bytes, payload) =>
          if validator.None? {
            return Err(MediaBeforeBind);
          }
          var header := new byte[104](i requires 0 <= i < 104 => bytes[i]);
          assert header[..] == bytes;
          var validated := validator.value.Validate(header);
          if validated.Err? {
            return Err(BadMedia(validated.error));
          }
          var finished := validator.value.Finish(validated.value, payload);
          if finished.Err? {
            return Err(BadMedia(finished.error));
          }
          var record := finished.value;
          if record.kind.StopRecord? {
            var reset := ResetTo(binding.value);
            r := Ok(false);
          } else {
            delivered := delivered + [Delivery(binding.value, record.payload)];
            r := Ok(false);
          }
      }
    }
  }

  /** The sequential reference loop, with its own binding, validator and decoder. */
  method Forward(reader: Reader, output: ServiceOutput) returns (r: Outcome<ServiceError>)
    requires output.Valid() && output.validator.None?
    modifies reader, output
    ensures var result := ForwardService(old(output.State()), old(reader.rest));
            r == result.outcome && output.delivered == result.delivered
  {
    hide ValidateHeader;
    hide ParseOutputControl;
    hide FinishRecord;
    ghost var expected := ForwardService(output.State(), reader.rest);
    while true
      invariant output.Valid()
      invariant output.validator.Some? ==> fresh(output.validator.value)
      invariant expected == ForwardService(output.State(), reader.rest)
      decreases |reader.rest|
    {
      ghost var input := reader.rest;
      var prefixed := ReadPrefix(reader);
      if prefixed.Err? {
        return Fail(prefixed.error);
      }
      if prefixed.value.None? {
        return Pass;
      }
      var prefix := prefixed.value.value;
      assert input == prefix + reader.rest;
      if prefix == MEDIA_MAGIC {
        var filled := ReadHeader(reader, prefix, 104);
        if filled.None? {
          return Fail(TruncatedInput);
        }
        if output.validator.None? {
          return Fail(MediaBeforeBind);
        }
        var validated := output.validator.value.Validate(filled.value);
        if validated.Err? {
          return Fail(BadMedia(validated.error));
        }
        var payload := new byte[validated.value.payloadLength](i => 0);
        var ok := reader.ReadExact(payload, 0);
        if !ok {
          return Fail(TruncatedInput);
        }
        assert payload[..] == input[MEDIA_HEADER_BYTES..MEDIA_HEADER_BYTES + validated.value.payloadLength];
        var finished := output.validator.value.Finish(validated.value, payload[..]);
        if finished.Err? {
          return Fail(BadMedia(finished.error));
        }
        if finished.value.kind.StopRecord? {
          var reset := output.ResetTo(output.binding.value);
        } else {
          output.delivered := output.delivered + [Delivery(output.binding.value, finished.value.payload)];
        }
      } else {
        if prefix != OUTPUT_CONTROL_MAGIC {
          return Fail(UnknownMagic);
        }
        var filled := ReadHeader(reader, prefix, 84);
        if filled.None? {
          return Fail(TruncatedInput);
        }
        var parsed := ParseOutputControl(filled.value[..]);
        if parsed.Err? {
          return Fail(BadCommand(parsed.error));
        }
        var outcome: Outcome<ServiceError> := Pass;
        match parsed.value {
          case Bind(next) => outcome := output.BindTo(next);
          case Reset(current) => outcome := output.ResetTo(current);
          case Shutdown => return Pass;
        }
        if outcome.Fail? {
          return outcome;
        }
      }
    }
  }
}
