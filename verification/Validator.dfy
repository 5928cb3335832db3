/**
 * The stateful validator that accepts media records in order, and the framing
 * of whole streams.
 */
module Validator {
  import opened Wrappers
  import opened Bytes
  import opened Media

  /** What the validator remembers between records. */
  datatype ValidatorState = ValidatorState(
    binding: MediaBinding,
    lastSequence: Option<u64>,
    lastPresentationTimeUs: Option<u64>,
    invalidated: bool)

  function NewValidator(binding: MediaBinding): ValidatorState
  {
    ValidatorState(binding, None, None, false)
  }

  function ValidateHeader(v: ValidatorState, header: seq<byte>): (r: Result<ValidatedMediaHeader, MediaError>)
    requires |header| == MEDIA_HEADER_BYTES
  {
    if v.invalidated then Err(Invalidated)
    else if header[..8] != MEDIA_MAGIC then Err(InvalidMagic)
    else if header[8] != MEDIA_PROTOCOL_VERSION then Err(UnsupportedVersion)
    else if header[9] != 1 && header[9] != 2 then Err(InvalidKind)
    else
      var kind := if header[9] == 1 then H264AccessUnit else StopRecord;
      var flags := ReadU16(header[10..12]);
      if flags > 1 || (kind.StopRecord? && flags != 0) then Err(InvalidFlags)
      else if header[12..44] != v.binding.peerIdentity then Err(WrongPeer)
      else if header[44..60] != v.binding.controlConnectionId then Err(WrongConnection)
      else if header[60..76] != v.binding.mediaSessionId then Err(WrongSession)
      else if ReadU64(header[76..84]) != v.binding.generation then Err(StaleGeneration)
      else
        ValidateProgress(v, kind, flags == 1,
                         ReadU64(header[84..92]), ReadU64(header[92..100]), ReadU32(header[100..104]))
  }

  /** The checks that depend on what was committed before. */
  function ValidateProgress(v: ValidatorState, kind: MediaRecordKind, keyFrame: bool,
                            sequence: u64, time: u64, payloadLength: u32)
    : (r: Result<ValidatedMediaHeader, MediaError>)
  {
    if v.lastSequence == Some(U64_MAX) then Err(InvalidSequence)
    else if sequence != (if v.lastSequence.Some? then v.lastSequence.value + 1 else 0) then Err(InvalidSequence)
    else
      match kind
      case H264AccessUnit =>
        if payloadLength == 0 then Err(EmptyAccessUnit)
        else if payloadLength > MAX_H264_ACCESS_UNIT_BYTES then Err(AccessUnitTooLarge)
        else if v.lastPresentationTimeUs.Some? && time < v.lastPresentationTimeUs.value then Err(InvalidTimestamp)
        else Ok(ValidatedMediaHeader(kind, keyFrame, sequence, time, payloadLength))
      case StopRecord =>
        if payloadLength != 0 then Err(StopHasPayload)
        else if time != 0 then Err(InvalidTimestamp)
        else Ok(ValidatedMediaHeader(kind, keyFrame, sequence, time, payloadLength))
  }

  function FinishRecord(v: ValidatorState, pending: ValidatedMediaHeader, payload: seq<byte>)
    : (r: Result<(MediaRecord, ValidatorState), MediaError>)
  {
    if v.invalidated then Err(Invalidated)
    else if |payload| != pending.payloadLength then Err(TruncatedPayload)
    else if pending.sequence != (if v.lastSequence.Some? then SaturatingAdd(v.lastSequence.value, 1) else 0) then
      Err(InvalidSequence)
    else
      var record := MediaRecord(pending.kind, pending.keyFrame, pending.sequence, pending.presentationTimeUs, payload);
      Ok((record, Committed(v, record)))
  }

  /** The state after `record` was committed. */
  function Committed(v: ValidatorState, record: MediaRecord): ValidatorState
  {
    if record.kind.H264AccessUnit? then
      v.(lastSequence := Some(record.sequence), lastPresentationTimeUs := Some(record.presentationTimeUs))
    else
      v.(lastSequence := Some(record.sequence), invalidated := true)
  }

  /** `record` is a legal next record, said without reference to bytes or checks. */
  predicate Follows(v: ValidatorState, record: MediaRecord)
  {
    && !v.invalidated
    && Writable(record)
    && record.sequence == (if v.lastSequence.Some? then v.lastSequence.value + 1 else 0)
    && (record.kind.H264AccessUnit? && v.lastPresentationTimeUs.Some? ==>
          v.lastPresentationTimeUs.value <= record.presentationTimeUs)
  }

  /** A header is accepted exactly when it is the header of a legal next record. */
  lemma ValidateExactly(v: ValidatorState, header: seq<byte>, record: MediaRecord)
    requires |header| == MEDIA_HEADER_BYTES && |record.payload| <= U32_MAX
    ensures
      ValidateHeader(v, header) == Ok(ValidatedMediaHeader(
        record.kind, record.keyFrame, record.sequence, record.presentationTimeUs, |record.payload|))
      <==> Follows(v, record) && header == RecordHeader(v.binding, record)
  {
    hide Envelope;
    hide RecordHeader;
    if Writable(record) {
      EnvelopeSlices(header, MEDIA_MAGIC, KindByte(record.kind), FlagsOf(record), v.binding);
      HeaderSlices(header, v.binding, record);
    }
  }

  /** Committing a header in the state that accepted it always succeeds. */
  lemma FinishAccepted(v: ValidatorState, header: seq<byte>, payload: seq<byte>)
    requires |header| == MEDIA_HEADER_BYTES
    requires ValidateHeader(v, header).Ok? && |payload| == ValidateHeader(v, header).value.payloadLength
    ensures var p := ValidateHeader(v, header).value;
            var record := MediaRecord(p.kind, p.keyFrame, p.sequence, p.presentationTimeUs, payload);
            && FinishRecord(v, p, payload) == Ok((record, Committed(v, record)))
            && Follows(v, record) && header == RecordHeader(v.binding, record)
  {
    var p := ValidateHeader(v, header).value;
    ValidateExactly(v, header, MediaRecord(p.kind, p.keyFrame, p.sequence, p.presentationTimeUs, payload));
  }

  datatype ReadOutcome =
    | Record(record: MediaRecord, after: ValidatorState, rest: seq<byte>)
    | EndOfStream
    | Failed(error: MediaError)

  /** One `read_next` on a reader that holds exactly `input`. */
  function ReadNext(v: ValidatorState, input: seq<byte>): (r: ReadOutcome)
    ensures r.Record? ==> |r.rest| + MEDIA_HEADER_BYTES <= |input|
  {
    if v.invalidated then Failed(Invalidated)
    else if input == [] then EndOfStream
    else if |input| < MEDIA_HEADER_BYTES then Failed(TruncatedHeader)
    else
      match ValidateHeader(v, input[..MEDIA_HEADER_BYTES])
      case Err(error) => Failed(error)
      case Ok(pending) =>
        var length := pending.payloadLength;
        if |input| - MEDIA_HEADER_BYTES < length then Failed(TruncatedPayload)
        else
          match FinishRecord(v, pending, input[MEDIA_HEADER_BYTES..MEDIA_HEADER_BYTES + length])
          case Err(error) => Failed(error)
          case Ok((record, after)) => Record(record, after, input[MEDIA_HEADER_BYTES + length..])
  }

  /**
   * Framing of one record is a bijection: a record is read exactly when the
   * input starts with the bytes of a legal next record, and those are the only
   * bytes used up.
   */
  lemma ReadNextExactly(v: ValidatorState, input: seq<byte>, record: MediaRecord, after: ValidatorState, rest: seq<byte>)
    ensures ReadNext(v, input) == Record(record, after, rest) <==>
            && Follows(v, record)
            && input == RecordBytes(v.binding, record) + rest
            && after == Committed(v, record)
  {
    if Follows(v, record) && input == RecordBytes(v.binding, record) + rest {
      ReadsPrinted(v, record, rest);
    }
    if ReadNext(v, input).Record? {
      PrintsRead(v, input);
    }
  }

  lemma ReadsPrinted(v: ValidatorState, record: MediaRecord, rest: seq<byte>)
    requires Follows(v, record)
    ensures ReadNext(v, RecordBytes(v.binding, record) + rest) == Record(record, Committed(v, record), rest)
  {
    var header := RecordHeader(v.binding, record);
    var input := RecordBytes(v.binding, record) + rest;
    var end := MEDIA_HEADER_BYTES + |record.payload|;
    ValidateExactly(v, header, record);
    FinishAccepted(v, header, record.payload);
    ThreeParts(input, header, record.payload, rest);
  }

  lemma PrintsRead(v: ValidatorState, input: seq<byte>)
    requires ReadNext(v, input).Record?
    ensures var step := ReadNext(v, input);
            && Follows(v, step.record)
            && input == RecordBytes(v.binding, step.record) + step.rest
            && step.after == Committed(v, step.record)
  {
    hide ValidateHeader, FinishRecord, RecordHeader, Committed;
    var header := input[..MEDIA_HEADER_BYTES];
    var end := MEDIA_HEADER_BYTES + ValidateHeader(v, header).value.payloadLength;
    FinishAccepted(v, header, input[MEDIA_HEADER_BYTES..end]);
    assert input == header + input[MEDIA_HEADER_BYTES..end] + input[end..];
  }

  lemma ThreeParts(h: seq<byte>, a: seq<byte>, b: seq<byte>, c: seq<byte>)
    requires h == a + b + c
    ensures h[..|a|] == a && h[|a|..|a| + |b|] == b && h[|a| + |b|..] == c
  {
  }

  datatype StreamOutcome =
    | Accepted(records: seq<MediaRecord>, after: ValidatorState, rest: seq<byte>)
    | Rejected(delivered: seq<MediaRecord>, error: MediaError)

  /** Repeated `read_next` until the input ends, a Stop is read, or a record is refused. */
  function ReadStream(v: ValidatorState, input: seq<byte>): (r: StreamOutcome)
    decreases |input|
  {
    match ReadNext(v, input)
    case EndOfStream => Accepted([], v, input)
    case Failed(error) => Rejected([], error)
    case Record(record, after, rest) =>
      if record.kind.StopRecord? then Accepted([record], after, rest)
      else
        match ReadStream(after, rest)
        case Accepted(records, final, tail) => Accepted([record] + records, final, tail)
        case Rejected(delivered, error) => Rejected([record] + delivered, error)
  }

  function CommittedAll(v: ValidatorState, records: seq<MediaRecord>): ValidatorState
    decreases |records|
  {
    if records == [] then v else CommittedAll(Committed(v, records[0]), records[1..])
  }

  predicate FollowsAll(v: ValidatorState, records: seq<MediaRecord>)
    decreases |records|
  {
    records == [] || (Follows(v, records[0]) && FollowsAll(Committed(v, records[0]), records[1..]))
  }

  /** One more record is committed after the others, if it follows them. */
  lemma {:induction false} NextCommits(v: ValidatorState, records: seq<MediaRecord>, record: MediaRecord)
    ensures CommittedAll(v, records + [record]) == Committed(CommittedAll(v, records), record)
    ensures FollowsAll(v, records + [record]) <==> FollowsAll(v, records) && Follows(CommittedAll(v, records), record)
    decreases |records|
  {
    hide Follows, Committed;
    if records == [] {
      assert [record][1..] == [];
      assert records + [record] == [record];
    } else {
      assert (records + [record])[1..] == records[1..] + [record];
      NextCommits(Committed(v, records[0]), records[1..], record);
    }
  }

  /** A legal stream, described from its first record on: no validator in sight. */
  predicate LegalStream(records: seq<MediaRecord>)
  {
    && (forall i :: 0 <= i < |records| ==> records[i].sequence == i && Writable(records[i]))
    && (forall i :: 0 <= i < |records| - 1 ==> records[i].kind.H264AccessUnit?)
    && (forall i, j :: 0 <= i < j < |records| && records[j].kind.H264AccessUnit? ==>
          records[i].presentationTimeUs <= records[j].presentationTimeUs)
  }

  /** `records`, the last of which a validator in state `v` would have committed. */
  predicate LegalAfter(v: ValidatorState, records: seq<MediaRecord>)
  {
    && !(v.invalidated && records != [])
    && (forall i :: 0 <= i < |records| ==>
          && records[i].sequence == i + (if v.lastSequence.Some? then v.lastSequence.value + 1 else 0)
          && Writable(records[i]))
    && (forall i :: 0 <= i < |records| - 1 ==> records[i].kind.H264AccessUnit?)
    && (forall i, j :: 0 <= i < j < |records| && records[j].kind.H264AccessUnit? ==>
          records[i].presentationTimeUs <= records[j].presentationTimeUs)
    && (forall i :: 0 <= i < |records| && records[i].kind.H264AccessUnit? && v.lastPresentationTimeUs.Some? ==>
          v.lastPresentationTimeUs.value <= records[i].presentationTimeUs)
  }

  lemma {:induction false} FollowsAllLegal(v: ValidatorState, records: seq<MediaRecord>)
    ensures FollowsAll(v, records) <==> LegalAfter(v, records)
    decreases |records|
  {
    if records != [] {
      var first, others := records[0], records[1..];
      var next := Committed(v, first);
      FollowsAllLegal(next, others);
      if LegalAfter(v, records) {
        assert forall i :: 0 <= i < |others| ==> others[i] == records[i + 1];
        assert |others| > 0 ==> records[0].kind.H264AccessUnit?;
        assert LegalAfter(next, others);
      }
      if FollowsAll(v, records) {
        assert forall i :: 0 < i < |records| ==> records[i] == others[i - 1];
        forall i, j | 0 <= i < j < |records| && records[j].kind.H264AccessUnit?
          ensures records[i].presentationTimeUs <= records[j].presentationTimeUs
        {
          assert records[j] == others[j - 1];
          if i > 0 { assert records[i] == others[i - 1]; }
        }
      }
    }
  }

  /** From a fresh binding, acceptance by the validator is legality of the stream. */
  lemma FreshStreamLegal(binding: MediaBinding, records: seq<MediaRecord>)
    ensures FollowsAll(NewValidator(binding), records) <==> LegalStream(records)
  {
    FollowsAllLegal(NewValidator(binding), records);
  }

  lemma {:induction false} FollowsAllWritable(v: ValidatorState, records: seq<MediaRecord>)
    requires FollowsAll(v, records)
    ensures forall record :: record in records ==> Writable(record)
  {
    FollowsAllLegal(v, records);
  }

  predicate EndsStream(records: seq<MediaRecord>, rest: seq<byte>)
  {
    rest == [] || (records != [] && records[|records| - 1].kind.StopRecord?)
  }

  /**
   * Framing is a bijection on legal streams: reading to the end yields `records`
   * with `rest` left over exactly when the input is the concatenated wire form
   * of `records`, they are legal, and reading had to end there.
   */
  lemma {:induction false} StreamExactly(v: ValidatorState, input: seq<byte>, records: seq<MediaRecord>, rest: seq<byte>)
    requires !v.invalidated
    ensures ReadStream(v, input) == Accepted(records, CommittedAll(v, records), rest) <==>
            && FollowsAll(v, records)
            && (FollowsAllWritable(v, records); input == StreamBytes(v.binding, records) + rest)
            && EndsStream(records, rest)
    decreases |records|
  {
    if FollowsAll(v, records) {
      FollowsAllWritable(v, records);
      if input == StreamBytes(v.binding, records) + rest && EndsStream(records, rest) {
        StreamReadsPrinted(v, records, rest);
      }
    }
    if ReadStream(v, input).Accepted? {
      StreamPrintsRead(v, input);
    }
  }

  lemma EndsAtEnd(v: ValidatorState, input: seq<byte>)
    ensures ReadNext(v, input).EndOfStream? <==> input == [] && !v.invalidated
  {
  }

  lemma StopIsLast(v: ValidatorState, records: seq<MediaRecord>)
    requires records != [] && FollowsAll(v, records) && records[0].kind.StopRecord?
    ensures |records| == 1
  {
    FollowsAllLegal(v, records);
  }

  lemma StreamBytesNext(binding: MediaBinding, records: seq<MediaRecord>, rest: seq<byte>)
    requires records != [] && forall record :: record in records ==> Writable(record)
    ensures StreamBytes(binding, records) + rest == RecordBytes(binding, records[0]) + (StreamBytes(binding, records[1..]) + rest)
  {
    hide RecordBytes;
  }

  lemma {:induction false} StreamReadsPrinted(v: ValidatorState, records: seq<MediaRecord>, rest: seq<byte>)
    requires !v.invalidated && FollowsAll(v, records) && EndsStream(records, rest)
    requires forall record :: record in records ==> Writable(record)
    ensures ReadStream(v, StreamBytes(v.binding, records) + rest) == Accepted(records, CommittedAll(v, records), rest)
    decreases |records|
  {
    hide RecordBytes;
    hide ReadNext;
    if records == [] {
      assert StreamBytes(v.binding, records) + rest == [];
      EndsAtEnd(v, []);
    } else {
      var record, others := records[0], records[1..];
      if record.kind.StopRecord? {
        StopIsLast(v, records);
      }
      assert forall r :: r in others ==> Writable(r);
      StreamBytesNext(v.binding, records, rest);
      var tail := StreamBytes(v.binding, others) + rest;
      hide StreamBytes;
      hide Follows;
      ReadsPrinted(v, record, tail);
      if record.kind.H264AccessUnit? {
        StreamReadsPrinted(Committed(v, record), others, rest);
      }
    }
  }

  lemma {:induction false} StreamPrintsRead(v: ValidatorState, input: seq<byte>)
    requires !v.invalidated && ReadStream(v, input).Accepted?
    ensures var outcome := ReadStream(v, input);
            && FollowsAll(v, outcome.records)
            && (forall record :: record in outcome.records ==> Writable(record))
            && input == StreamBytes(v.binding, outcome.records) + outcome.rest
            && EndsStream(outcome.records, outcome.rest)
            && outcome.after == CommittedAll(v, outcome.records)
    decreases |input|
  {
    hide RecordBytes;
    hide ReadNext;
    var outcome := ReadStream(v, input);
    var step := ReadNext(v, input);
    if step.EndOfStream? {
      EndsAtEnd(v, input);
    }
    if step.Record? {
      PrintsRead(v, input);
      var record, others := step.record, outcome.records[1..];
      assert outcome.records == [record] + others;
      if record.kind.H264AccessUnit? {
        StreamPrintsRead(step.after, step.rest);
        assert others == ReadStream(step.after, step.rest).records;
      } else {
        assert others == [];
      }
      var tail := StreamBytes(v.binding, others) + outcome.rest;
      assert tail == step.rest;
      assert StreamBytes(v.binding, outcome.records) + outcome.rest == RecordBytes(v.binding, record) + tail;
    }
  }

  class MediaStreamValidator {
    const binding: MediaBinding
    var lastSequence: Option<u64>
    var lastPresentationTimeUs: Option<u64>
    var invalidated: bool

    function State(): ValidatorState
      reads this
    {
      ValidatorState(binding, lastSequence, lastPresentationTimeUs, invalidated)
    }

    constructor (binding: MediaBinding)
      ensures State() == NewValidator(binding)
    {
      this.binding := binding;
      lastSequence, lastPresentationTimeUs, invalidated := None, None, false;
    }

    /** Checks a header against the current state; changes nothing. */
    method Validate(header: array<byte>) returns (r: Result<ValidatedMediaHeader, MediaError>)
      requires header.Length == MEDIA_HEADER_BYTES
      ensures r == ValidateHeader(State(), header[..])
    {
      if invalidated {
        return Err(Invalidated);
      }
      if header[..8] != MEDIA_MAGIC {
        return Err(InvalidMagic);
      }
      if header[8] != MEDIA_PROTOCOL_VERSION {
        return Err(UnsupportedVersion);
      }
      var kind := H264AccessUnit;
      if header[9] == 2 {
        kind := StopRecord;
      } else if header[9] != 1 {
        return Err(InvalidKind);
      }
      var flags := ReadU16(header[10..12]);
      if flags > 1 || (kind.StopRecord? && flags != 0) {
        return Err(InvalidFlags);
      }
      if header[12..44] != binding.peerIdentity {
        return Err(WrongPeer);
      }
      if header[44..60] != binding.controlConnectionId {
        return Err(WrongConnection);
      }
      if header[60..76] != binding.mediaSessionId {
        return Err(WrongSession);
      }
      if ReadU64(header[76..84]) != binding.generation {
        return Err(StaleGeneration);
      }
      var sequence := ReadU64(header[84..92]);
      var time := ReadU64(header[92..100]);
      var payloadLength := ReadU32(header[100..104]);
      var expected: u64 := 0;
      if lastSequence.Some? {
        if lastSequence.value == U64_MAX {
          return Err(InvalidSequence);
        }
        expected := lastSequence.value + 1;
      }
      if sequence != expected {
        return Err(InvalidSequence);
      }
      if kind.H264AccessUnit? {
        if payloadLength == 0 {
          return Err(EmptyAccessUnit);
        }
        if payloadLength > MAX_H264_ACCESS_UNIT_BYTES {
          return Err(AccessUnitTooLarge);
        }
        if lastPresentationTimeUs.Some? && time < lastPresentationTimeUs.value {
          return Err(InvalidTimestamp);
        }
      } else {
        if payloadLength != 0 {
          return Err(StopHasPayload);
        }
        if time != 0 {
          return Err(InvalidTimestamp);
        }
      }
      r := Ok(ValidatedMediaHeader(kind, flags == 1, sequence, time, payloadLength));
    }

    /** Commits a validated header with its payload. */
    method Finish(pending: ValidatedMediaHeader, payload: seq<byte>) returns (r: Result<MediaRecord, MediaError>)
      modifies this
      ensures match FinishRecord(old(State()), pending, payload)
              case Ok((record, after)) => r == Ok(record) && State() == after
              case Err(error) => r == Err(error) && State() == old(State())
    {
      if invalidated {
        return Err(Invalidated);
      }
      if |payload| != pending.payloadLength {
        return Err(TruncatedPayload);
      }
      var expected: u64 := if lastSequence.Some? then SaturatingAdd(lastSequence.value, 1) else 0;
      if pending.sequence != expected {
        return Err(InvalidSequence);
      }
      lastSequence := Some(pending.sequence);
      if pending.kind.H264AccessUnit? {
        lastPresentationTimeUs := Some(pending.presentationTimeUs);
      } else {
        invalidated := true;
      }
      r := Ok(MediaRecord(pending.kind, pending.keyFrame, pending.sequence, pending.presentationTimeUs, payload));
    }

    /** Reads one record; None is a clean end of the input. */
    method Read(reader: Reader) returns (r: Result<Option<MediaRecord>, MediaError>)
      modifies this, reader
      ensures match ReadNext(old(State()), old(reader.rest))
              case Record(record, after, rest) => r == Ok(Some(record)) && State() == after && reader.rest == rest
              case EndOfStream => r == Ok(None) && State() == old(State()) && reader.rest == []
              case Failed(error) => r == Err(error) && State() == old(State())
    {
      hide ValidateHeader;
      if invalidated {
        return Err(Invalidated);
      }
      ghost var input := reader.rest;
      var header := new byte[104](i => 0);
      var count := reader.ReadFirst(header);
      if count == 0 {
        return Ok(None);
      }
      var ok := reader.ReadExact(header, 1);
      if !ok {
        return Err(TruncatedHeader);
      }
      assert header[..] == input[..MEDIA_HEADER_BYTES];
      var validated := Validate(header);
      if validated.Err? {
        return Err(validated.error);
      }
      var pending := validated.value;
      var payload := new byte[pending.payloadLength](i => 0);
      ok := reader.ReadExact(payload, 0);
      if !ok {
        return Err(TruncatedPayload);
      }
      assert payload[..] == input[MEDIA_HEADER_BYTES..MEDIA_HEADER_BYTES + pending.payloadLength];
      var finished := Finish(pending, payload[..]);
      match finished {
        case Ok(record) => r := Ok(Some(record));
        case Err(error) => r := Err(error);
      }
    }
  }

  /** The payload bytes of the access units in `records`, in order. */
  function Payloads(records: seq<MediaRecord>): seq<byte>
  {
    if records == [] then []
    else (if records[0].kind.H264AccessUnit? then records[0].payload else []) + Payloads(records[1..])
  }

  lemma {:induction false} PayloadsAppend(records: seq<MediaRecord>, last: MediaRecord)
    ensures Payloads(records + [last]) == Payloads(records) + Payloads([last])
  {
    if records != [] {
      assert (records + [last])[1..] == records[1..] + [last];
      PayloadsAppend(records[1..], last);
    }
  }

  function DeliveredBy(outcome: StreamOutcome): seq<MediaRecord>
  {
    match outcome
    case Accepted(records, _, _) => records
    case Rejected(delivered, _) => delivered
  }

  /** `done` was read before the rest of a stream gave `outcome`. */
  function Resumed(done: seq<MediaRecord>, outcome: StreamOutcome): StreamOutcome
  {
    match outcome
    case Accepted(records, after, rest) => Accepted(done + records, after, rest)
    case Rejected(delivered, error) => Rejected(done + delivered, error)
  }

  lemma ResumedStep(done: seq<MediaRecord>, record: MediaRecord, outcome: StreamOutcome)
    ensures Resumed(done, Resumed([record], outcome)) == Resumed(done + [record], outcome)
  {
    assert done + ([record] + DeliveredBy(outcome)) == (done + [record]) + DeliveredBy(outcome);
  }

  /** Forwards access-unit payloads until Stop, the end of the input or an error. */
  method ForwardMedia(reader: Reader, decoder: Writer, validator: MediaStreamValidator) returns (r: Outcome<MediaError>)
    modifies reader, decoder, validator
    ensures var outcome := ReadStream(old(validator.State()), old(reader.rest));
            && decoder.written == old(decoder.written) + Payloads(DeliveredBy(outcome))
            && r == (match outcome case Accepted(_, _, _) => Pass case Rejected(_, error) => Fail(error))
            && (outcome.Accepted? ==> validator.State() == outcome.after && reader.rest == outcome.rest)
  {
    hide ReadNext;
    hide Committed;
    ghost var v0, input := validator.State(), reader.rest;
    ghost var outcome := ReadStream(v0, input);
    ghost var done: seq<MediaRecord> := [];
    ghost var before := decoder.written;
    assert Resumed([], outcome) == outcome;
    while true
      invariant outcome == Resumed(done, ReadStream(validator.State(), reader.rest))
      invariant decoder.written == before + Payloads(done)
      decreases |reader.rest|
    {
      ghost var v, rest := validator.State(), reader.rest;
      var next := validator.Read(reader);
      match next {
        case Err(error) =>
          assert DeliveredBy(outcome) == done;
          return Fail(error);
        case Ok(None) =>
          EndsAtEnd(v, rest);
          assert DeliveredBy(outcome) == done;
          return Pass;
        case Ok(Some(record)) =>
          PayloadsAppend(done, record);
          assert Payloads([record]) == if record.kind.H264AccessUnit? then record.payload else [];
          match record.kind {
            case H264AccessUnit =>
              decoder.WriteAll(record.payload);
              ResumedStep(done, record, ReadStream(validator.State(), reader.rest));
              done := done + [record];
            case StopRecord =>
              assert DeliveredBy(outcome) == done + [record];
              return Pass;
          }
      }
    }
  }
}
