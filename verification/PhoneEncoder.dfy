/** The phone's encoder of the media format, written field by field in another language. */
module PhoneEncoder {
  import opened Wrappers
  import opened Bytes
  import opened Media
  import opened Hex

  /** A signed 64-bit integer. */
  type Long = x: int | -0x8000_0000_0000_0000 <= x <= 0x7FFF_FFFF_FFFF_FFFF

  /** The identifiers are hex strings, as the phone received them. */
  datatype CaptureBinding = CaptureBinding(peer: seq<byte>, connection: seq<byte>, session: seq<byte>, generation: Long)

  predicate IsHexDigit(c: byte)
  {
    48 <= c <= 57 || 97 <= c <= 102 || 65 <= c <= 70
  }

  function Digit(c: byte): (r: byte)
    requires IsHexDigit(c)
    ensures r < 16
  {
    if c <= 57 then c - 48 else if c <= 70 then c - 55 else c - 87
  }

  /** The bytes a string of hex digits stands for; None when it is malformed. */
  function HexBytes(text: seq<byte>, expected: nat): (r: Option<seq<byte>>)
    ensures r.Some? ==> |r.value| == expected
  {
    if |text| != expected * 2 || exists i :: 0 <= i < |text| && !IsHexDigit(text[i]) then None
    else Some(seq(expected, i requires 0 <= i < expected => Digit(text[2 * i]) * 16 + Digit(text[2 * i + 1])))
  }

  lemma DigitIsLower(c: byte)
    requires IsHexDigit(c)
    ensures LowerDigit(Digit(c)) == if 65 <= c <= 90 then c + 32 else c
  {
  }

  lemma ParsedDigit(text: seq<byte>, expected: nat, k: nat)
    requires HexBytes(text, expected).Some? && k < |text|
    ensures Lowercase(text)[k] == EncodeHex(HexBytes(text, expected).value)[k]
  {
    hide Lowercase;
    var data := HexBytes(text, expected).value;
    var i := k / 2;
    DigitIsLower(text[k]);
    assert data[i] / 16 == Digit(text[2 * i]) && data[i] % 16 == Digit(text[2 * i + 1]);
    LowercaseAt(text, k);
    var encoded := EncodeHex(data);
    assert encoded[2 * i] == LowerDigit(data[i] / 16) && encoded[2 * i + 1] == LowerDigit(data[i] % 16);
    assert k == 2 * i || k == 2 * i + 1;
  }

  lemma LowercaseAt(text: seq<byte>, k: nat)
    requires k < |text|
    ensures Lowercase(text)[k] == if 65 <= text[k] <= 90 then text[k] + 32 else text[k]
  {
  }

  lemma EncodedDigit(text: seq<byte>, data: seq<byte>, k: nat)
    requires Lowercase(text) == EncodeHex(data) && k < |text|
    ensures IsHexDigit(text[k])
  {
    hide Lowercase;
    LowercaseAt(text, k);
    var i := k / 2;
    var encoded := EncodeHex(data);
    assert encoded[2 * i] == LowerDigit(data[i] / 16) && encoded[2 * i + 1] == LowerDigit(data[i] % 16);
    assert k == 2 * i || k == 2 * i + 1;
  }

  /** Both languages read the same hex strings, as the same bytes. */
  lemma HexBytesExactly(text: seq<byte>, expected: nat, data: seq<byte>)
    ensures HexBytes(text, expected) == Some(data) <==> |data| == expected && Lowercase(text) == EncodeHex(data)
  {
    if HexBytes(text, expected).Some? {
      var parsed := HexBytes(text, expected).value;
      forall k | 0 <= k < |text| ensures Lowercase(text)[k] == EncodeHex(parsed)[k] {
        ParsedDigit(text, expected, k);
      }
      hide EncodeHex;
      assert Lowercase(text) == EncodeHex(parsed);
      if |data| == expected && Lowercase(text) == EncodeHex(data) {
        EncodeHexInjective(parsed, data);
      }
    } else if |data| == expected && Lowercase(text) == EncodeHex(data) {
      forall k | 0 <= k < |text| ensures IsHexDigit(text[k]) {
        EncodedDigit(text, data, k);
      }
    }
  }

  /** What the phone's binding stands for, when it is well-formed. */
  function Decoded(binding: CaptureBinding): Option<MediaBinding>
  {
    var peer, connection, session := HexBytes(binding.peer, 32), HexBytes(binding.connection, 16), HexBytes(binding.session, 16);
    if peer.None? || connection.None? || session.None? || binding.generation <= 0 then None
    else Some(MediaBinding(peer.value, connection.value, session.value, binding.generation))
  }

  /** Two's complement, most significant byte first. */
  function LongBytes(value: Long): (r: seq<byte>)
    ensures value >= 0 ==> r == Be64(value)
  {
    BigEndian(if value < 0 then value + U64_MAX + 1 else value, 8)
  }

  /** Writes one field after those in `sent`. */
  method Put(output: Writer, field: seq<byte>, ghost start: seq<byte>, ghost sent: seq<byte>) returns (ghost more: seq<byte>)
    requires output.written == start + sent
    modifies output
    ensures more == sent + field && output.written == start + more
  {
    output.WriteAll(field);
    more := sent + field;
    assert start + sent + field == start + (sent + field);
  }

  /** Writes a header field by field, or nothing when the binding is malformed. */
  method WriteHeader(output: Writer, binding: CaptureBinding, kind: MediaRecordKind, flags: u16,
                     sequence: Long, timestampUs: Long, payloadSize: u32)
    returns (ok: bool)
    requires sequence >= 0 && timestampUs >= 0
    modifies output
    ensures ok <==> Decoded(binding).Some?
    ensures !ok ==> output.written == old(output.written)
    ensures ok ==>
      output.written == old(output.written)
        + (Envelope(MEDIA_MAGIC, KindByte(kind), flags, Decoded(binding).value)
           + Be64(sequence) + Be64(timestampUs) + Be32(payloadSize))
  {
    hide Be16, Be32, Be64, LongBytes, HexBytes;
    var peer := HexBytes(binding.peer, 32);
    var connection := HexBytes(binding.connection, 16);
    var session := HexBytes(binding.session, 16);
    if peer.None? || connection.None? || session.None? || binding.generation <= 0 {
      return false;
    }
    ghost var start := output.written;
    ghost var sent := Put(output, MEDIA_MAGIC, start, []);
    sent := Put(output, [1], start, sent);
    sent := Put(output, [KindByte(kind)], start, sent);
    assert sent == MEDIA_MAGIC + [1, KindByte(kind)];
    sent := Put(output, Be16(flags), start, sent);
    sent := Put(output, peer.value, start, sent);
    sent := Put(output, connection.value, start, sent);
    sent := Put(output, session.value, start, sent);
    sent := Put(output, LongBytes(binding.generation), start, sent);
    assert sent == Envelope(MEDIA_MAGIC, KindByte(kind), flags, Decoded(binding).value);
    sent := Put(output, LongBytes(sequence), start, sent);
    sent := Put(output, LongBytes(timestampUs), start, sent);
    sent := Put(output, Be32(payloadSize), start, sent);
    ok := true;
  }

  /** The record the phone means. */
  function AccessUnit(sequence: Long, timestampUs: Long, keyFrame: bool, payload: seq<byte>): MediaRecord
    requires sequence >= 0 && timestampUs >= 0
  {
    MediaRecord(H264AccessUnit, keyFrame, sequence, timestampUs, payload)
  }

  /** For the fields it accepts, the phone writes the bytes the other encoder writes; otherwise it writes nothing. */
  method WriteAccessUnit(output: Writer, binding: CaptureBinding, sequence: Long, timestampUs: Long, keyFrame: bool,
                         payload: seq<byte>)
    returns (ok: bool)
    modifies output
    ensures ok <==> sequence >= 0 && timestampUs >= 0 && Decoded(binding).Some?
                    && Writable(AccessUnit(sequence, timestampUs, keyFrame, payload))
    ensures !ok ==> output.written == old(output.written)
    ensures ok ==>
      output.written == old(output.written) + RecordBytes(Decoded(binding).value, AccessUnit(sequence, timestampUs, keyFrame, payload))
  {
    if sequence < 0 || timestampUs < 0 || payload == [] || |payload| > MAX_H264_ACCESS_UNIT_BYTES {
      return false;
    }
    ghost var start := output.written;
    ghost var record := AccessUnit(sequence, timestampUs, keyFrame, payload);
    hide Envelope, Decoded, Be64, Be32;
    ok := WriteHeader(output, binding, H264AccessUnit, if keyFrame then 1 else 0, sequence, timestampUs, |payload|);
    if ok {
      ghost var header := RecordHeader(Decoded(binding).value, record);
      assert output.written == start + header;
      hide RecordHeader;
      ghost var _ := Put(output, payload, start, header);
      assert header + payload == RecordBytes(Decoded(binding).value, record);
    }
  }

  method WriteStop(output: Writer, binding: CaptureBinding, sequence: Long) returns (ok: bool)
    modifies output
    ensures ok <==> sequence >= 0 && Decoded(binding).Some?
    ensures !ok ==> output.written == old(output.written)
    ensures ok ==>
      output.written == old(output.written) + RecordBytes(Decoded(binding).value, MediaRecord(StopRecord, false, sequence, 0, []))
  {
    if sequence < 0 {
      return false;
    }
    hide Envelope, Decoded;
    ok := WriteHeader(output, binding, StopRecord, 0, sequence, 0, 0);
    if ok {
      assert RecordBytes(Decoded(binding).value, MediaRecord(StopRecord, false, sequence, 0, []))
          == RecordHeader(Decoded(binding).value, MediaRecord(StopRecord, false, sequence, 0, []));
    }
  }
}
