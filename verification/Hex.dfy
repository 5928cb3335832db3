/** The hex form of identifiers; strings are their UTF-8 bytes. */
module Hex {
  import opened Wrappers
  import opened Bytes

  function HexNibble(value: byte): (r: Option<byte>)
    ensures r.Some? ==> r.value < 16
  {
    if 48 <= value <= 57 then Some(value - 48)
    else if 97 <= value <= 102 then Some(value - 97 + 10)
    else if 65 <= value <= 70 then Some(value - 65 + 10)
    else None
  }

  function LowerDigit(nibble: byte): byte
    requires nibble < 16
  {
    if nibble < 10 then 48 + nibble else 97 + nibble - 10
  }

  function Lowercase(text: seq<byte>): (r: seq<byte>)
    ensures |r| == |text|
  {
    seq(|text|, i requires 0 <= i < |text| => if 65 <= text[i] <= 90 then text[i] + 32 else text[i])
  }

  /** Two lower-case digits for each byte. */
  function EncodeHex(data: seq<byte>): (r: seq<byte>)
    ensures |r| == 2 * |data|
    ensures forall i :: 0 <= i < |data| ==>
      r[2 * i] == LowerDigit(data[i] / 16) && r[2 * i + 1] == LowerDigit(data[i] % 16)
  {
    if data == [] then []
    else
      var front := data[..|data| - 1];
      var last := data[|data| - 1];
      EncodeHex(front) + [LowerDigit(last / 16), LowerDigit(last % 16)]
  }

  /** Parses exactly `n` bytes of hex in either case. */
  method ParseHex(text: seq<byte>, n: nat) returns (r: Option<seq<byte>>)
    ensures r.Some? ==> |r.value| == n && Lowercase(text) == EncodeHex(r.value)
    ensures r.None? ==> !exists data: seq<byte> :: |data| == n && Lowercase(text) == EncodeHex(data)
  {
    if |text| != n * 2 {
      return None;
    }
    var bytes := new byte[n](i => 0);
    var index := 0;
    while index < n
      invariant 0 <= index <= n
      invariant forall i :: 0 <= i < index ==>
        && Lowercase(text)[2 * i] == LowerDigit(bytes[i] / 16)
        && Lowercase(text)[2 * i + 1] == LowerDigit(bytes[i] % 16)
    {
      var high := HexNibble(text[2 * index]);
      if high.None? {
        NoDigit(text, n, 2 * index);
        return None;
      }
      var low := HexNibble(text[2 * index + 1]);
      if low.None? {
        NoDigit(text, n, 2 * index + 1);
        return None;
      }
      bytes[index] := high.value * 16 + low.value;
      index := index + 1;
    }
    var encoded := EncodeHex(bytes[..]);
    forall k | 0 <= k < 2 * n ensures Lowercase(text)[k] == encoded[k] {
      var i := k / 2;
      assert k == 2 * i || k == 2 * i + 1;
      assert encoded[2 * i] == LowerDigit(bytes[i] / 16) && encoded[2 * i + 1] == LowerDigit(bytes[i] % 16);
    }
    r := Some(bytes[..]);
  }

  lemma NoDigit(text: seq<byte>, n: nat, at: nat)
    requires |text| == 2 * n && at < |text| && HexNibble(text[at]).None?
    ensures !exists data: seq<byte> :: |data| == n && Lowercase(text) == EncodeHex(data)
  {
    forall data: seq<byte> | |data| == n ensures Lowercase(text) != EncodeHex(data) {
      var i := at / 2;
      assert EncodeHex(data)[at] == LowerDigit(data[i] / 16) || EncodeHex(data)[at] == LowerDigit(data[i] % 16) by {
        assert at == 2 * i || at == 2 * i + 1;
      }
    }
  }

  /** Different identifiers have different hex forms. */
  lemma EncodeHexInjective(x: seq<byte>, y: seq<byte>)
    requires EncodeHex(x) == EncodeHex(y)
    ensures x == y
  {
    forall i | 0 <= i < |x| ensures x[i] == y[i] {
      var d := EncodeHex(x);
      assert d[2 * i] == LowerDigit(x[i] / 16) == LowerDigit(y[i] / 16);
      assert d[2 * i + 1] == LowerDigit(x[i] % 16) == LowerDigit(y[i] % 16);
      assert x[i] == 16 * (x[i] / 16) + x[i] % 16 && y[i] == 16 * (y[i] / 16) + y[i] % 16;
    }
  }
}
