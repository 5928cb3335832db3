/** The length-prefixed transcripts that pairing and control proofs sign. */
module Transcripts {
  import opened Wrappers
  import opened Bytes

  /** The ASCII bytes of OMACAM-PAIR-CLAIM-V1 and OMACAM-CONTROL-PROOF-V1, each with a final zero. */
  const PAIR_CLAIM_TAG: seq<byte> :=
    [79, 77, 65, 67, 65, 77, 45, 80, 65, 73, 82, 45, 67, 76, 65, 73, 77, 45, 86, 49, 0]
  const CONTROL_PROOF_TAG: seq<byte> :=
    [79, 77, 65, 67, 65, 77, 45, 67, 79, 78, 84, 82, 79, 76, 45, 80, 82, 79, 79, 70, 45, 86, 49, 0]

  datatype TranscriptError = InvalidFieldLength

  predicate Short(field: seq<byte>)
  {
    |field| <= U32_MAX
  }

  function FieldBytes(field: seq<byte>): (r: seq<byte>)
    requires Short(field)
  {
    Be32(|field|) + field
  }

  function FieldsBytes(fields: seq<seq<byte>>): (r: seq<byte>)
    requires forall field :: field in fields ==> Short(field)
  {
    if fields == [] then [] else FieldBytes(fields[0]) + FieldsBytes(fields[1..])
  }

  method AppendField(target: seq<byte>, field: seq<byte>) returns (r: Result<seq<byte>, TranscriptError>)
    ensures r == if Short(field) then Ok(target + FieldBytes(field)) else Err(InvalidFieldLength)
  {
    if |field| > U32_MAX {
      return Err(InvalidFieldLength);
    }
    r := Ok(target + Be32(|field|) + field);
    assert target + Be32(|field|) + field == target + FieldBytes(field);
  }

  /** What a transcript builder returns: the tag and every field, or an error. */
  function TranscriptOf(tag: seq<byte>, fields: seq<seq<byte>>): Result<seq<byte>, TranscriptError>
  {
    if forall field :: field in fields ==> Short(field) then Ok(tag + FieldsBytes(fields))
    else Err(InvalidFieldLength)
  }

  /** `claim_transcript` and `proof_transcript` both append their fields in turn. */
  method BuildTranscript(tag: seq<byte>, fields: seq<seq<byte>>) returns (r: Result<seq<byte>, TranscriptError>)
    ensures r == TranscriptOf(tag, fields)
  {
    hide FieldBytes;
    hide FieldsBytes;
    assert FieldsBytes([]) == [] by { NoFields(); }
    var transcript := tag;
    var i := 0;
    while i < |fields|
      invariant 0 <= i <= |fields|
      invariant forall field :: field in fields[..i] ==> Short(field)
      invariant transcript == tag + FieldsBytes(fields[..i])
    {
      var appended := AppendField(transcript, fields[i]);
      if appended.Err? {
        assert fields[i] in fields && !Short(fields[i]);
        return Err(appended.error);
      }
      FieldsAppend(fields[..i], fields[i]);
      assert fields[..i + 1] == fields[..i] + [fields[i]];
      transcript := appended.value;
      i := i + 1;
    }
    assert fields[..i] == fields;
    r := Ok(transcript);
  }

  lemma NoFields()
    ensures FieldsBytes([]) == []
  {
  }

  lemma {:induction false} FieldsAppend(fields: seq<seq<byte>>, last: seq<byte>)
    requires Short(last) && forall field :: field in fields ==> Short(field)
    ensures FieldsBytes(fields + [last]) == FieldsBytes(fields) + FieldBytes(last)
  {
    if fields == [] {
      assert fields + [last] == [last];
      assert FieldsBytes([last][1..]) == [];
    } else {
      assert (fields + [last])[0] == fields[0] && (fields + [last])[1..] == fields[1..] + [last];
      FieldsAppend(fields[1..], last);
    }
  }

  /** A field can be cut off the front in one way only. */
  lemma FieldPrefixFree(x: seq<byte>, xs: seq<byte>, y: seq<byte>, ys: seq<byte>)
    requires Short(x) && Short(y) && FieldBytes(x) + xs == FieldBytes(y) + ys
    ensures x == y && xs == ys
  {
    var whole := FieldBytes(x) + xs;
    assert whole[..4] == Be32(|x|) && whole[..4] == Be32(|y|);
    FixedWidthRoundTrips(0, |x|, 0);
    FixedWidthRoundTrips(0, |y|, 0);
    assert x == whole[4..4 + |x|] == y;
    assert xs == whole[4 + |x|..] == ys;
  }

  lemma {:induction false} FieldsInjective(x: seq<seq<byte>>, y: seq<seq<byte>>)
    requires (forall field :: field in x ==> Short(field)) && (forall field :: field in y ==> Short(field))
    requires FieldsBytes(x) == FieldsBytes(y)
    ensures x == y
  {
    if x == [] || y == [] {
      assert |FieldsBytes(if x == [] then y else x)| == 0;
    } else {
      FieldPrefixFree(x[0], FieldsBytes(x[1..]), y[0], FieldsBytes(y[1..]));
      FieldsInjective(x[1..], y[1..]);
      assert x == [x[0]] + x[1..] && y == [y[0]] + y[1..];
    }
  }

  /** Equal signed bytes mean equal fields, whatever the fields hold and however many there are. */
  lemma TranscriptInjective(tag: seq<byte>, x: seq<seq<byte>>, y: seq<seq<byte>>)
    requires TranscriptOf(tag, x).Ok? && TranscriptOf(tag, x) == TranscriptOf(tag, y)
    ensures x == y
  {
    var bytes := TranscriptOf(tag, x).value;
    assert bytes[|tag|..] == FieldsBytes(x) && bytes[|tag|..] == FieldsBytes(y);
    FieldsInjective(x, y);
  }

  datatype PairClaim = PairClaim(
    sessionId: seq<byte>, challenge: seq<byte>, certificateSha256: seq<byte>, endpoint: seq<byte>,
    desktopName: seq<byte>, phoneName: seq<byte>, phonePublicKey: seq<byte>, phoneNonce: seq<byte>)

  function PairTranscript(claim: PairClaim): Result<seq<byte>, TranscriptError>
  {
    TranscriptOf(PAIR_CLAIM_TAG,
                 [claim.sessionId, claim.challenge, claim.certificateSha256, claim.endpoint,
                  claim.desktopName, claim.phoneName, claim.phonePublicKey, claim.phoneNonce])
  }

  datatype ControlClaim = ControlClaim(
    version: byte, features: u32, sessionId: seq<byte>, challenge: seq<byte>,
    certificateSha256: seq<byte>, phoneKeyDigest: seq<byte>, phoneNonce: seq<byte>)

  function ControlTranscript(claim: ControlClaim): Result<seq<byte>, TranscriptError>
  {
    TranscriptOf(CONTROL_PROOF_TAG,
                 [[claim.version], Be32(claim.features), claim.sessionId, claim.challenge,
                  claim.certificateSha256, claim.phoneKeyDigest, claim.phoneNonce])
  }

  lemma PairTranscriptBinds(x: PairClaim, y: PairClaim)
    requires PairTranscript(x).Ok? && PairTranscript(x) == PairTranscript(y)
    ensures x == y
  {
    var xs := [x.sessionId, x.challenge, x.certificateSha256, x.endpoint, x.desktopName, x.phoneName, x.phonePublicKey, x.phoneNonce];
    var ys := [y.sessionId, y.challenge, y.certificateSha256, y.endpoint, y.desktopName, y.phoneName, y.phonePublicKey, y.phoneNonce];
    TranscriptInjective(PAIR_CLAIM_TAG, xs, ys);
    assert forall i :: 0 <= i < 8 ==> xs[i] == ys[i];
  }

  lemma ControlTranscriptBinds(x: ControlClaim, y: ControlClaim)
    requires ControlTranscript(x).Ok? && ControlTranscript(x) == ControlTranscript(y)
    ensures x == y
  {
    var xs := [[x.version], Be32(x.features), x.sessionId, x.challenge, x.certificateSha256, x.phoneKeyDigest, x.phoneNonce];
    var ys := [[y.version], Be32(y.features), y.sessionId, y.challenge, y.certificateSha256, y.phoneKeyDigest, y.phoneNonce];
    TranscriptInjective(CONTROL_PROOF_TAG, xs, ys);
    assert forall i :: 0 <= i < 7 ==> xs[i] == ys[i];
    FixedWidthRoundTrips(0, x.features, 0);
    FixedWidthRoundTrips(0, y.features, 0);
  }

  /** A proof made for one ceremony is never a proof for the other. */
  lemma TranscriptsSeparate(x: PairClaim, y: ControlClaim)
    requires PairTranscript(x).Ok?
    ensures PairTranscript(x) != ControlTranscript(y)
  {
    if ControlTranscript(y).Ok? {
      assert PairTranscript(x).value[7] == PAIR_CLAIM_TAG[7] && ControlTranscript(y).value[7] == CONTROL_PROOF_TAG[7];
    }
  }
}
