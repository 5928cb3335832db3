/** Bytes, big-endian integers of a fixed width, and the in-memory ends of a pipe. */
module Bytes {
  type byte = b: int | 0 <= b < 256

  const U32_MAX: int := 0xFFFF_FFFF
  const U64_MAX: int := 0xFFFF_FFFF_FFFF_FFFF

  type u16 = x: int | 0 <= x < 0x1_0000
  type u32 = x: int | 0 <= x <= 0xFFFF_FFFF
  type u64 = x: int | 0 <= x <= 0xFFFF_FFFF_FFFF_FFFF

  function SaturatingAdd(x: u64, y: u64): (r: u64)
  {
    if x + y <= U64_MAX then x + y else U64_MAX
  }

  function SaturatingSub(x: nat, y: nat): (r: nat)
  {
    if y <= x then x - y else 0
  }

  /** The last `width` base-256 digits of `value`, most significant first. */
  function BigEndian(value: nat, width: nat): (r: seq<byte>)
    ensures |r| == width
    decreases width
  {
    if width == 0 then [] else BigEndian(value / 256, width - 1) + [value % 256]
  }

  function FromBigEndian(s: seq<byte>): (r: nat)
  {
    if s == [] then 0 else 256 * FromBigEndian(s[..|s| - 1]) + s[|s| - 1]
  }

  function Power256(width: nat): (r: nat)
    ensures r > 0
  {
    if width == 0 then 1 else 256 * Power256(width - 1)
  }

  lemma PowersOfWidths()
    ensures Power256(2) == 0x1_0000
    ensures Power256(4) == U32_MAX + 1
    ensures Power256(8) == U64_MAX + 1
  {
    assert Power256(2) == 256 * Power256(1);
    assert Power256(4) == 256 * Power256(3) == 256 * 256 * Power256(2);
    assert Power256(6) == 256 * Power256(5) == 256 * 256 * Power256(4);
    assert Power256(8) == 256 * Power256(7) == 256 * 256 * Power256(6);
  }

  lemma {:induction false} DecodeEncode(value: nat, width: nat)
    requires value < Power256(width)
    ensures FromBigEndian(BigEndian(value, width)) == value
  {
    if width > 0 {
      DecodeEncode(value / 256, width - 1);
      var s := BigEndian(value, width);
      assert s[..|s| - 1] == BigEndian(value / 256, width - 1);
    }
  }

  lemma {:induction false} EncodeDecode(s: seq<byte>)
    ensures FromBigEndian(s) < Power256(|s|)
    ensures BigEndian(FromBigEndian(s), |s|) == s
  {
    if s != [] {
      var high := s[..|s| - 1];
      EncodeDecode(high);
      var value := FromBigEndian(s);
      assert value / 256 == FromBigEndian(high) && value % 256 == s[|s| - 1];
      assert BigEndian(value, |s|) == high + [s[|s| - 1]] == s;
    }
  }

  function Be16(x: u16): (r: seq<byte>) ensures |r| == 2 { BigEndian(x, 2) }
  function Be32(x: u32): (r: seq<byte>) ensures |r| == 4 { BigEndian(x, 4) }
  function Be64(x: u64): (r: seq<byte>) ensures |r| == 8 { BigEndian(x, 8) }

  function ReadU16(s: seq<byte>): (r: u16)
    requires |s| == 2
  {
    EncodeDecode(s); PowersOfWidths();
    FromBigEndian(s)
  }

  function ReadU32(s: seq<byte>): (r: u32)
    requires |s| == 4
  {
    EncodeDecode(s); PowersOfWidths();
    FromBigEndian(s)
  }

  function ReadU64(s: seq<byte>): (r: u64)
    requires |s| == 8
  {
    EncodeDecode(s); PowersOfWidths();
    FromBigEndian(s)
  }

  lemma FixedWidthRoundTrips(a: u16, b: u32, c: u64)
    ensures ReadU16(Be16(a)) == a
    ensures ReadU32(Be32(b)) == b
    ensures ReadU64(Be64(c)) == c
  {
    PowersOfWidths();
    DecodeEncode(a, 2);
    DecodeEncode(b, 4);
    DecodeEncode(c, 8);
  }

  function Zeros(n: nat): (r: seq<byte>)
    ensures |r| == n
    ensures forall i :: 0 <= i < n ==> r[i] == 0
  {
    seq(n, i => 0)
  }

  /** The reading end of a pipe: `rest` holds the bytes not read yet. */
  class Reader {
    var rest: seq<byte>

    constructor (input: seq<byte>)
      ensures rest == input
    {
      rest := input;
    }

    /** Reads one byte into the front of `buffer`, or reports the end of the input. */
    method ReadFirst(buffer: array<byte>) returns (count: nat)
      requires buffer.Length > 0
      modifies this, buffer
      ensures count == if old(rest) == [] then 0 else 1
      ensures count == 1 ==> buffer[0] == old(rest)[0] && rest == old(rest)[1..]
      ensures count == 0 ==> buffer[..] == old(buffer[..]) && rest == []
      ensures forall i :: 1 <= i < buffer.Length ==> buffer[i] == old(buffer[i])
    {
      if rest == [] {
        return 0;
      }
      buffer[0] := rest[0];
      rest := rest[1..];
      count := 1;
    }

    /** Fills `buffer[from..]`, or fails having used up the input. */
    method ReadExact(buffer: array<byte>, from: nat) returns (ok: bool)
      requires from <= buffer.Length
      modifies this, buffer
      ensures ok <==> |old(rest)| >= buffer.Length - from
      ensures ok ==> buffer[..] == old(buffer[..from]) + old(rest)[..buffer.Length - from]
      ensures ok ==> rest == old(rest)[buffer.Length - from..]
    {
      var wanted := buffer.Length - from;
      if |rest| < wanted {
        rest := [];
        return false;
      }
      forall i | from <= i < buffer.Length {
        buffer[i] := rest[i - from];
      }
      rest := rest[wanted..];
      ok := true;
    }
  }

  /** The writing end of a pipe: everything written to it so far. */
  class Writer {
    var written: seq<byte>

    constructor ()
      ensures written == []
    {
      written := [];
    }

    method WriteAll(data: seq<byte>)
      modifies this
      ensures written == old(written) + data
    {
      written := written + data;
    }
  }

  /** Overwrites `target[at..at + |source|]`. */
  method CopyFromSlice(target: array<byte>, at: nat, source: seq<byte>)
    requires at + |source| <= target.Length
    modifies target
    ensures target[..at + |source|] == old(target[..at]) + source
    ensures forall i :: at + |source| <= i < target.Length ==> target[i] == old(target[i])
  {
    forall i | 0 <= i < |source| {
      target[at + i] := source[i];
    }
  }
}
