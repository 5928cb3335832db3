/** Media framing: 104-byte record headers and 84-byte output commands. */
module Media {
  import opened Wrappers
  import opened Bytes

  const MEDIA_PROTOCOL_VERSION: byte := 1
  const MEDIA_HEADER_BYTES := 104
  const OUTPUT_CONTROL_HEADER_BYTES := 84
  const MAX_H264_ACCESS_UNIT_BYTES := 1_048_576
  /** The ASCII bytes of OMACAMM1 and OMACAMO1. */
  const MEDIA_MAGIC: seq<byte> := [79, 77, 65, 67, 65, 77, 77, 49]
  const OUTPUT_CONTROL_MAGIC: seq<byte> := [79, 77, 65, 67, 65, 77, 79, 49]

  type PeerIdentity = s: seq<byte> | |s| == 32 witness Zeros(32)
  type ControlConnectionId = s: seq<byte> | |s| == 16 witness Zeros(16)
  type MediaSessionId = s: seq<byte> | |s| == 16 witness Zeros(16)

  datatype MediaBinding = MediaBinding(
    peerIdentity: PeerIdentity,
    controlConnectionId: ControlConnectionId,
    mediaSessionId: MediaSessionId,
    generation: u64)

  datatype MediaRecordKind = H264AccessUnit | StopRecord

  datatype MediaRecord = MediaRecord(
    kind: MediaRecordKind,
    keyFrame: bool,
    sequence: u64,
    presentationTimeUs: u64,
    payload: seq<byte>)

  datatype ValidatedMediaHeader = ValidatedMediaHeader(
    kind: MediaRecordKind,
    keyFrame: bool,
    sequence: u64,
    presentationTimeUs: u64,
    payloadLength: u32)

  datatype MediaError =
    | TruncatedHeader | TruncatedPayload | InvalidMagic | UnsupportedVersion
    | InvalidKind | InvalidFlags | WrongPeer | WrongConnection | WrongSession
    | StaleGeneration | InvalidSequence | InvalidTimestamp | EmptyAccessUnit
    | AccessUnitTooLarge | StopHasPayload | Invalidated

  datatype OutputControlCommand =
    | Bind(binding: MediaBinding)
    | Reset(binding: MediaBinding)
    | Shutdown

  datatype OutputControlError =
    | ControlInvalidMagic | ControlUnsupportedVersion | ControlInvalidKind
    | ControlInvalidFlags | ControlInvalidBinding

  // ---------------------------------------------------------------- layout

  /** The 84 bytes shared by record headers and Bind/Reset commands. */
  function Envelope(magic: seq<byte>, kind: byte, flags: u16, binding: MediaBinding): (r: seq<byte>)
    requires |magic| == 8
    ensures |r| == 84
  {
    magic + [MEDIA_PROTOCOL_VERSION, kind] + Be16(flags)
    + binding.peerIdentity + binding.controlConnectionId + binding.mediaSessionId
    + Be64(binding.generation)
  }

  function KindByte(kind: MediaRecordKind): byte
  {
    match kind
    case H264AccessUnit => 1
    case StopRecord => 2
  }

  function FlagsOf(record: MediaRecord): u16
  {
    if record.keyFrame then 1 else 0
  }

  /** Why `write_record` refuses a record; None when it is written. */
  function Refusal(record: MediaRecord): Option<MediaError>
  {
    match record.kind
    case H264AccessUnit =>
      if record.payload == [] then Some(EmptyAccessUnit)
      else if |record.payload| > MAX_H264_ACCESS_UNIT_BYTES then Some(AccessUnitTooLarge)
      else None
    case StopRecord =>
      if record.keyFrame then Some(InvalidFlags)
      else if record.payload != [] then Some(StopHasPayload)
      else if record.presentationTimeUs != 0 then Some(InvalidTimestamp)
      else None
  }

  predicate Writable(record: MediaRecord)
  {
    Refusal(record).None?
  }

  function RecordHeader(binding: MediaBinding, record: MediaRecord): (r: seq<byte>)
    requires Writable(record)
    ensures |r| == MEDIA_HEADER_BYTES
  {
    Envelope(MEDIA_MAGIC, KindByte(record.kind), FlagsOf(record), binding)
    + Be64(record.sequence) + Be64(record.presentationTimeUs) + Be32(|record.payload|)
  }

  /** The wire form of one record. */
  function RecordBytes(binding: MediaBinding, record: MediaRecord): (r: seq<byte>)
    requires Writable(record)
    ensures |r| == MEDIA_HEADER_BYTES + |record.payload|
  {
    RecordHeader(binding, record) + record.payload
  }

  function StreamBytes(binding: MediaBinding, records: seq<MediaRecord>): (r: seq<byte>)
    requires forall record :: record in records ==> Writable(record)
  {
    if records == [] then [] else RecordBytes(binding, records[0]) + StreamBytes(binding, records[1..])
  }

  function ControlBytes(command: OutputControlCommand): (r: seq<byte>)
    ensures |r| == OUTPUT_CONTROL_HEADER_BYTES
  {
    match command
    case Bind(binding) => Envelope(OUTPUT_CONTROL_MAGIC, 1, 0, binding)
    case Reset(binding) => Envelope(OUTPUT_CONTROL_MAGIC, 2, 0, binding)
    case Shutdown => OUTPUT_CONTROL_MAGIC + [MEDIA_PROTOCOL_VERSION, 3] + Zeros(74)
  }

  lemma Be16Reads(s: seq<byte>, x: u16)
    requires |s| == 2
    ensures s == Be16(x) <==> ReadU16(s) == x
  {
    FixedWidthRoundTrips(x, 0, 0);
    EncodeDecode(s);
  }

  lemma Be32Reads(s: seq<byte>, x: u32)
    requires |s| == 4
    ensures s == Be32(x) <==> ReadU32(s) == x
  {
    FixedWidthRoundTrips(0, x, 0);
    EncodeDecode(s);
  }

  lemma Be64Reads(s: seq<byte>, x: u64)
    requires |s| == 8
    ensures s == Be64(x) <==> ReadU64(s) == x
  {
    FixedWidthRoundTrips(0, 0, x);
    EncodeDecode(s);
  }

  /** A byte string carries an envelope exactly when each slice the readers look at does. */
  lemma EnvelopeSlices(h: seq<byte>, magic: seq<byte>, kind: byte, flags: u16, b: MediaBinding)
    requires |h| >= 84 && |magic| == 8
    ensures h[..84] == Envelope(magic, kind, flags, b) <==>
            && h[..8] == magic && h[8] == MEDIA_PROTOCOL_VERSION && h[9] == kind
            && ReadU16(h[10..12]) == flags
            && h[12..44] == b.peerIdentity && h[44..60] == b.controlConnectionId
            && h[60..76] == b.mediaSessionId && ReadU64(h[76..84]) == b.generation
  {
    Be16Reads(h[10..12], flags);
    Be64Reads(h[76..84], b.generation);
    SevenParts(h[..84], magic, [MEDIA_PROTOCOL_VERSION, kind], Be16(flags),
               b.peerIdentity, b.controlConnectionId, b.mediaSessionId, Be64(b.generation));
    SlicesOfPrefix(h);
  }

  lemma SlicesOfPrefix(h: seq<byte>)
    requires |h| >= 84
    ensures var p := h[..84];
            && p[..8] == h[..8] && p[8..10] == [h[8], h[9]] && p[10..12] == h[10..12] && p[12..44] == h[12..44]
            && p[44..60] == h[44..60] && p[60..76] == h[60..76] && p[76..84] == h[76..84]
  {
  }

  lemma SplitAt(h: seq<byte>, x: seq<byte>, y: seq<byte>)
    requires |h| == |x| + |y|
    ensures h == x + y <==> h[..|x|] == x && h[|x|..] == y
  {
    assert h == h[..|x|] + h[|x|..];
  }

  lemma SevenParts(h: seq<byte>, a: seq<byte>, b: seq<byte>, c: seq<byte>, d: seq<byte>, e: seq<byte>, f: seq<byte>, g: seq<byte>)
    requires |h| == 84 && |a| == 8 && |b| == 2 && |c| == 2 && |d| == 32 && |e| == 16 && |f| == 16 && |g| == 8
    ensures h == a + b + c + d + e + f + g <==>
            && h[..8] == a && h[8..10] == b && h[10..12] == c && h[12..44] == d
            && h[44..60] == e && h[60..76] == f && h[76..84] == g
  {
    SplitAt(h, a + b + c + d + e + f, g);
    SplitAt(h[..76], a + b + c + d + e, f);
    assert h[..76][..60] == h[..60] && h[..76][60..] == h[60..76];
    SplitAt(h[..60], a + b + c + d, e);
    assert h[..60][..44] == h[..44] && h[..60][44..] == h[44..60];
    SplitAt(h[..44], a + b + c, d);
    assert h[..44][..12] == h[..12] && h[..44][12..] == h[12..44];
    SplitAt(h[..12], a + b, c);
    assert h[..12][..10] == h[..10] && h[..12][10..] == h[10..12];
    SplitAt(h[..10], a, b);
    assert h[..10][..8] == h[..8] && h[..10][8..] == h[8..10];
  }

  lemma HeaderSlices(h: seq<byte>, b: MediaBinding, r: MediaRecord)
    requires |h| == MEDIA_HEADER_BYTES && Writable(r)
    ensures h == RecordHeader(b, r) <==>
            && h[..84] == Envelope(MEDIA_MAGIC, KindByte(r.kind), FlagsOf(r), b)
            && ReadU64(h[84..92]) == r.sequence && ReadU64(h[92..100]) == r.presentationTimeUs
            && ReadU32(h[100..104]) == |r.payload|
  {
    Be64Reads(h[84..92], r.sequence);
    Be64Reads(h[92..100], r.presentationTimeUs);
    Be32Reads(h[100..104], |r.payload|);
    FourParts(h, Envelope(MEDIA_MAGIC, KindByte(r.kind), FlagsOf(r), b),
              Be64(r.sequence), Be64(r.presentationTimeUs), Be32(|r.payload|));
  }

  lemma FourParts(h: seq<byte>, a: seq<byte>, b: seq<byte>, c: seq<byte>, d: seq<byte>)
    requires |h| == 104 && |a| == 84 && |b| == 8 && |c| == 8 && |d| == 4
    ensures h == a + b + c + d <==> h[..84] == a && h[84..92] == b && h[92..100] == c && h[100..104] == d
  {
    assert h == h[..84] + h[84..92] + h[92..100] + h[100..104];
    var e := a + b + c + d;
    assert e[..84] == a && e[84..92] == b && e[92..100] == c && e[100..104] == d;
  }

  // ------------------------------------------------------ output commands

  function ParseOutputControl(header: seq<byte>): (r: Result<OutputControlCommand, OutputControlError>)
    requires |header| == OUTPUT_CONTROL_HEADER_BYTES
  {
    if header[..8] != OUTPUT_CONTROL_MAGIC then Err(ControlInvalidMagic)
    else if header[8] != MEDIA_PROTOCOL_VERSION then Err(ControlUnsupportedVersion)
    else if header[10] != 0 || header[11] != 0 then Err(ControlInvalidFlags)
    else if header[9] == 1 || header[9] == 2 then
      var binding := MediaBinding(header[12..44], header[44..60], header[60..76], ReadU64(header[76..84]));
      if binding.generation == 0 then Err(ControlInvalidBinding)
      else if header[9] == 1 then Ok(Bind(binding))
      else Ok(Reset(binding))
    else if header[9] == 3 then
      if forall i :: 12 <= i < 84 ==> header[i] == 0 then Ok(Shutdown) else Err(ControlInvalidBinding)
    else Err(ControlInvalidKind)
  }

  predicate Issuable(command: OutputControlCommand)
  {
    command.Shutdown? || command.binding.generation != 0
  }

  /** Parsing inverts printing, on exactly the commands whose generation is not zero. */
  lemma ControlRoundTrip(header: seq<byte>, command: OutputControlCommand)
    requires |header| == OUTPUT_CONTROL_HEADER_BYTES
    ensures ParseOutputControl(header) == Ok(command) <==> header == ControlBytes(command) && Issuable(command)
  {
    if command.Shutdown? {
      ShutdownRoundTrip(header);
    } else {
      hide Envelope;
      assert header[..84] == header;
      ZeroFlags(header[10..12]);
      EnvelopeSlices(header, OUTPUT_CONTROL_MAGIC, if command.Bind? then 1 else 2, 0, command.binding);
    }
  }

  lemma ZeroFlags(s: seq<byte>)
    requires |s| == 2
    ensures ReadU16(s) == 0 <==> s[0] == 0 && s[1] == 0
  {
    Be16Reads(s, 0);
    assert Be16(0) == [0, 0] by { assert BigEndian(0, 1) == [0]; }
  }

  lemma ShutdownRoundTrip(header: seq<byte>)
    requires |header| == OUTPUT_CONTROL_HEADER_BYTES
    ensures ParseOutputControl(header) == Ok(Shutdown) <==> header == ControlBytes(Shutdown)
  {
    hide ReadU16;
    hide ReadU64;
    SplitAt(header, OUTPUT_CONTROL_MAGIC + [MEDIA_PROTOCOL_VERSION, 3], Zeros(74));
    SplitAt(header[..10], OUTPUT_CONTROL_MAGIC, [MEDIA_PROTOCOL_VERSION, 3]);
    assert header[..10][..8] == header[..8] && header[..10][8..] == [header[8], header[9]];
    assert header[10..] == Zeros(74) <==> forall i :: 10 <= i < 84 ==> header[i] == 0 by {
      assert forall i :: 10 <= i < 84 ==> header[i] == header[10..][i - 10];
    }
  }

  method WriteOutputControl(writer: Writer, command: OutputControlCommand)
    modifies writer
    ensures writer.written == old(writer.written) + ControlBytes(command)
  {
    var header := new byte[84](i => 0);
    if command.Shutdown? {
      CopyFromSlice(header, 0, OUTPUT_CONTROL_MAGIC);
      header[8] := MEDIA_PROTOCOL_VERSION;
      header[9] := 3;
      assert header[..] == header[..8] + [MEDIA_PROTOCOL_VERSION, 3] + header[10..];
      assert header[10..] == Zeros(74);
    } else {
      FillEnvelope(header, OUTPUT_CONTROL_MAGIC, if command.Bind? then 1 else 2, 0, command.binding);
      assert header[..] == header[..84];
    }
    writer.WriteAll(header[..]);
  }

  /** Writes the fields shared by commands and records into the front of a header. */
  method FillEnvelope(header: array<byte>, magic: seq<byte>, kind: byte, flags: u16, binding: MediaBinding)
    requires header.Length >= 84 && |magic| == 8
    modifies header
    ensures header[..84] == Envelope(magic, kind, flags, binding)
    ensures forall i :: 84 <= i < header.Length ==> header[i] == old(header[i])
  {
    CopyFromSlice(header, 0, magic);
    header[8] := MEDIA_PROTOCOL_VERSION;
    header[9] := kind;
    assert header[..10] == magic + [MEDIA_PROTOCOL_VERSION, kind];
    CopyFromSlice(header, 10, Be16(flags));
    CopyFromSlice(header, 12, binding.peerIdentity);
    CopyFromSlice(header, 44, binding.controlConnectionId);
    CopyFromSlice(header, 60, binding.mediaSessionId);
    CopyFromSlice(header, 76, Be64(binding.generation));
  }

  method FillHeader(header: array<byte>, binding: MediaBinding, record: MediaRecord)
    requires header.Length == MEDIA_HEADER_BYTES && Writable(record)
    modifies header
    ensures header[..] == RecordHeader(binding, record)
  {
    hide Envelope;
    hide BigEndian;
    FillEnvelope(header, MEDIA_MAGIC, match record.kind case H264AccessUnit => 1 case StopRecord => 2,
                 if record.keyFrame then 1 else 0, binding);
    CopyFromSlice(header, 84, Be64(record.sequence));
    CopyFromSlice(header, 92, Be64(record.presentationTimeUs));
    CopyFromSlice(header, 100, Be32(|record.payload|));
    assert header[..] == header[..104];
  }

  method WriteRecord(writer: Writer, binding: MediaBinding, record: MediaRecord) returns (r: Outcome<MediaError>)
    modifies writer
    ensures r == match Refusal(record) case None => Pass case Some(error) => Fail(error)
    ensures writer.written ==
            if Writable(record) then old(writer.written) + RecordBytes(binding, record) else old(writer.written)
  {
    match record.kind {
      case H264AccessUnit =>
        if record.payload == [] {
          return Fail(EmptyAccessUnit);
        }
        if |record.payload| > MAX_H264_ACCESS_UNIT_BYTES {
          return Fail(AccessUnitTooLarge);
        }
      case StopRecord =>
        if record.keyFrame {
          return Fail(InvalidFlags);
        }
        if record.payload != [] {
          return Fail(StopHasPayload);
        }
        if record.presentationTimeUs != 0 {
          return Fail(InvalidTimestamp);
        }
    }
    PutRecord(writer, binding, record);
    r := Pass;
  }

  method PutRecord(writer: Writer, binding: MediaBinding, record: MediaRecord)
    requires Writable(record)
    modifies writer
    ensures writer.written == old(writer.written) + RecordBytes(binding, record)
  {
    hide RecordHeader;
    var header := new byte[104](i => 0);
    FillHeader(header, binding, record);
    writer.WriteAll(header[..]);
    writer.WriteAll(record.payload);
    assert old(writer.written) + RecordHeader(binding, record) + record.payload
        == old(writer.written) + RecordBytes(binding, record);
  }
}
