/** The preview's splitter of a motion-JPEG byte stream into frames. */
module Jpeg {
  import opened Wrappers
  import opened Bytes

  const MAX_JPEG_BYTES: nat := 262_144

  datatype JpegError = FrameTooLong | UnexpectedEof

  datatype Parser = Parser(frame: seq<byte>, previousWasMarker: bool)

  const Between := Parser([], false)

  /** The parser after one byte, and the frame or error it gives. */
  function Pushed(p: Parser, b: byte): (Parser, Result<Option<seq<byte>>, JpegError>)
  {
    if p.frame == [] then
      if p.previousWasMarker && b == 0xD8 then (Parser([0xFF, 0xD8], false), Ok(None))
      else (Parser([], b == 0xFF), Ok(None))
    else
      var frame := p.frame + [b];
      if |frame| > MAX_JPEG_BYTES then (Between, Err(FrameTooLong))
      else if p.previousWasMarker && b == 0xD9 then (Between, Ok(Some(frame)))
      else (Parser(frame, b == 0xFF), Ok(None))
  }

  class JpegParser {
    var frame: seq<byte>
    var previousWasMarker: bool

    function State(): Parser
      reads this
    {
      Parser(frame, previousWasMarker)
    }

    constructor ()
      ensures State() == Between
    {
      frame, previousWasMarker := [], false;
    }

    method Push(b: byte) returns (r: Result<Option<seq<byte>>, JpegError>)
      modifies this
      ensures (State(), r) == Pushed(old(State()), b)
    {
      if frame == [] {
        if previousWasMarker && b == 0xD8 {
          frame := [0xFF, 0xD8];
          previousWasMarker := false;
        } else {
          previousWasMarker := b == 0xFF;
        }
        return Ok(None);
      }
      frame := frame + [b];
      if |frame| > MAX_JPEG_BYTES {
        frame, previousWasMarker := [], false;
        return Err(FrameTooLong);
      }
      var finished := previousWasMarker && b == 0xD9;
      previousWasMarker := b == 0xFF;
      if finished {
        r := Ok(Some(frame));
        previousWasMarker, frame := false, [];
        return;
      }
      r := Ok(None);
    }
  }

  /** Where the splitter stands in a stream: the frames it gave, and whether it gave up. */
  datatype Scan = Scan(parser: Parser, frames: seq<seq<byte>>, failed: bool)

  const Start := Scan(Between, [], false)

  function Fed(s: Scan, b: byte): Scan
  {
    if s.failed then s
    else
      var (parser, r) := Pushed(s.parser, b);
      match r
      case Ok(Some(frame)) => Scan(parser, s.frames + [frame], false)
      case Ok(None) => Scan(parser, s.frames, false)
      case Err(_) => Scan(parser, s.frames, true)
  }

  function Feed(s: Scan, text: seq<byte>): Scan
    decreases |text|
  {
    if text == [] then s else Fed(Feed(s, text[..|text| - 1]), text[|text| - 1])
  }

  function Flatten(chunks: seq<seq<byte>>): seq<byte>
  {
    if chunks == [] then [] else Flatten(chunks[..|chunks| - 1]) + chunks[|chunks| - 1]
  }

  predicate Splits(s: Scan)
  {
    !s.failed && s.parser.frame == []
  }

  lemma {:induction false} FeedAppend(s: Scan, a: seq<byte>, b: seq<byte>)
    ensures Feed(s, a + b) == Feed(Feed(s, a), b)
    decreases |b|
  {
    if b == [] {
      assert a + b == a;
    } else {
      hide Fed;
      var all := a + b;
      assert all[..|all| - 1] == a + b[..|b| - 1];
      FeedAppend(s, a, b[..|b| - 1]);
    }
  }

  lemma FeedOne(s: Scan, text: seq<byte>, b: byte)
    ensures Feed(s, text + [b]) == Fed(Feed(s, text), b)
  {
    assert (text + [b])[..|text|] == text;
  }

  lemma {:induction false} FailureStays(s: Scan, text: seq<byte>)
    requires s.failed
    ensures Feed(s, text) == s
    decreases |text|
  {
    if text != [] {
      FailureStays(s, text[..|text| - 1]);
    }
  }

  lemma {:induction false} FlattenPrefix(chunks: seq<seq<byte>>, i: nat) returns (rest: seq<byte>)
    requires i <= |chunks|
    ensures Flatten(chunks) == Flatten(chunks[..i]) + rest
  {
    if i == |chunks| {
      rest := [];
      assert chunks[..i] == chunks;
    } else {
      var front := chunks[..|chunks| - 1];
      rest := FlattenPrefix(front, i);
      assert front[..i] == chunks[..i];
      rest := rest + chunks[|chunks| - 1];
    }
  }

  /** A stream that failed after part of a chunk has failed as a whole, with the same frames. */
  lemma FailedFor(chunks: seq<seq<byte>>, i: nat, j: nat)
    requires i < |chunks| && j <= |chunks[i]|
    requires Feed(Start, Flatten(chunks[..i]) + chunks[i][..j]).failed
    ensures Feed(Start, Flatten(chunks)) == Feed(Start, Flatten(chunks[..i]) + chunks[i][..j])
  {
    var before := Flatten(chunks[..i]);
    var rest := FlattenPrefix(chunks, i + 1);
    assert chunks[..i + 1][..i] == chunks[..i];
    assert before + chunks[i] + rest == before + chunks[i][..j] + (chunks[i][j..] + rest);
    FeedAppend(Start, before + chunks[i][..j], chunks[i][j..] + rest);
    FailureStays(Feed(Start, before + chunks[i][..j]), chunks[i][j..] + rest);
  }

  /** Frames and result depend on the bytes only, not on how reads cut them into chunks. */
  method ForwardJpegs(chunks: seq<seq<byte>>) returns (frames: seq<seq<byte>>, r: Outcome<JpegError>)
    ensures frames == Feed(Start, Flatten(chunks)).frames
    ensures r.Pass? <==> Splits(Feed(Start, Flatten(chunks)))
    ensures r.Fail? ==> r.error == if Feed(Start, Flatten(chunks)).failed then FrameTooLong else UnexpectedEof
  {
    hide Feed, Flatten;
    var parser := new JpegParser();
    frames := [];
    NothingFed();
    for i := 0 to |chunks|
      invariant Feed(Start, Flatten(chunks[..i])) == Scan(parser.State(), frames, false)
    {
      ghost var before := Flatten(chunks[..i]);
      assert before + chunks[i][..0] == before;
      for j := 0 to |chunks[i]|
        invariant Feed(Start, before + chunks[i][..j]) == Scan(parser.State(), frames, false)
      {
        var result := parser.Push(chunks[i][j]);
        FeedOne(Start, before + chunks[i][..j], chunks[i][j]);
        assert before + chunks[i][..j] + [chunks[i][j]] == before + chunks[i][..j + 1];
        match result
        case Ok(Some(frame)) => frames := frames + [frame];
        case Ok(None) =>
        case Err(error) =>
          FailedFor(chunks, i, j + 1);
          return frames, Fail(error);
      }
      assert before + chunks[i][..|chunks[i]|] == before + chunks[i];
      FlattenNext(chunks, i);
    }
    assert chunks[..|chunks|] == chunks;
    r := if parser.frame == [] then Pass else Fail(UnexpectedEof);
  }

  lemma NothingFed()
    ensures Flatten([]) == [] && Feed(Start, []) == Start
  {
  }

  lemma FlattenNext(chunks: seq<seq<byte>>, i: nat)
    requires i < |chunks|
    ensures Flatten(chunks[..i + 1]) == Flatten(chunks[..i]) + chunks[i]
  {
    assert chunks[..i + 1][..i] == chunks[..i];
  }

  // ---------------------------------------------------- what a stream means

  /** The two bytes `a`, `b` stand next to each other somewhere in `text`. */
  predicate HasPair(text: seq<byte>, a: byte, b: byte)
  {
    exists i :: 0 <= i < |text| - 1 && text[i] == a && text[i + 1] == b
  }

  /** A frame starts with SOI, ends with the first EOI after it, and is not too long. */
  predicate IsFrame(frame: seq<byte>)
  {
    && 4 <= |frame| <= MAX_JPEG_BYTES
    && frame[0] == 0xFF && frame[1] == 0xD8
    && frame[|frame| - 2] == 0xFF && frame[|frame| - 1] == 0xD9
    && !HasPair(frame[2..|frame| - 1], 0xFF, 0xD9)
  }

  predicate IsNoise(text: seq<byte>)
  {
    !HasPair(text, 0xFF, 0xD8)
  }

  datatype Part = Part(noise: seq<byte>, frame: seq<byte>)

  /** A stream of frames, each after some noise. */
  predicate IsStream(parts: seq<Part>)
  {
    forall i :: 0 <= i < |parts| ==> IsNoise(parts[i].noise) && IsFrame(parts[i].frame)
  }

  function Text(parts: seq<Part>): seq<byte>
  {
    if parts == [] then []
    else
      var last := parts[|parts| - 1];
      Text(parts[..|parts| - 1]) + last.noise + last.frame
  }

  function Frames(parts: seq<Part>): (r: seq<seq<byte>>)
    ensures |r| == |parts|
    ensures forall i :: 0 <= i < |parts| ==> r[i] == parts[i].frame
  {
    if parts == [] then [] else Frames(parts[..|parts| - 1]) + [parts[|parts| - 1].frame]
  }

  predicate EndsWithMarker(text: seq<byte>)
  {
    text != [] && text[|text| - 1] == 0xFF
  }

  lemma PairAtEnd(text: seq<byte>, b: byte, c: byte)
    ensures HasPair(text + [b], 0xFF, c) <==> HasPair(text, 0xFF, c) || (EndsWithMarker(text) && b == c)
  {
    var longer := text + [b];
    if HasPair(text, 0xFF, c) {
      var i :| 0 <= i < |text| - 1 && text[i] == 0xFF && text[i + 1] == c;
      assert longer[i] == 0xFF && longer[i + 1] == c;
    }
    if EndsWithMarker(text) && b == c {
      assert longer[|text| - 1] == 0xFF && longer[|text| - 1 + 1] == c;
    }
    if HasPair(longer, 0xFF, c) {
      var i :| 0 <= i < |longer| - 1 && longer[i] == 0xFF && longer[i + 1] == c;
      assert i < |text| - 1 ==> text[i] == 0xFF && text[i + 1] == c;
    }
  }

  /** Between frames: some parts, and noise after them. Inside one: its SOI, and a body with no EOI yet. */
  predicate Describes(parts: seq<Part>, noise: seq<byte>, body: seq<byte>, s: Scan)
  {
    && IsStream(parts) && IsNoise(noise) && s.frames == Frames(parts) && !s.failed
    && (if s.parser.frame == [] then body == [] && s.parser.previousWasMarker == EndsWithMarker(noise)
        else
          && s.parser.frame == [0xFF, 0xD8] + body && !HasPair(body, 0xFF, 0xD9)
          && s.parser.previousWasMarker == EndsWithMarker(body) && |s.parser.frame| <= MAX_JPEG_BYTES)
  }

  /** The bytes of a described stream. */
  function Whole(parts: seq<Part>, noise: seq<byte>, body: seq<byte>, s: Scan): seq<byte>
  {
    Text(parts) + noise + if s.parser.frame == [] then [] else [0xFF, 0xD8] + body
  }

  // ------------------------------------------ every stream is split exactly

  lemma {:induction false} FeedNoise(frames: seq<seq<byte>>, noise: seq<byte>)
    requires IsNoise(noise)
    ensures Feed(Scan(Between, frames, false), noise) == Scan(Parser([], EndsWithMarker(noise)), frames, false)
    decreases |noise|
  {
    if noise != [] {
      var front, last := noise[..|noise| - 1], noise[|noise| - 1];
      assert front + [last] == noise;
      PairAtEnd(front, last, 0xD8);
      FeedNoise(frames, front);
    }
  }

  lemma {:induction false} FeedBody(frames: seq<seq<byte>>, body: seq<byte>)
    requires !HasPair(body, 0xFF, 0xD9) && |body| + 2 <= MAX_JPEG_BYTES
    ensures Feed(Scan(Parser([0xFF, 0xD8], false), frames, false), body) ==
            Scan(Parser([0xFF, 0xD8] + body, EndsWithMarker(body)), frames, false)
    decreases |body|
  {
    if body != [] {
      var front, last := body[..|body| - 1], body[|body| - 1];
      assert front + [last] == body && [0xFF, 0xD8] + front + [last] == [0xFF, 0xD8] + body;
      PairAtEnd(front, last, 0xD9);
      FeedBody(frames, front);
    }
  }

  /** From between frames, whatever came before, a frame is given as it ends. */
  lemma FeedFrame(frames: seq<seq<byte>>, marker: bool, frame: seq<byte>)
    requires IsFrame(frame)
    ensures Feed(Scan(Parser([], marker), frames, false), frame) == Scan(Between, frames + [frame], false)
  {
    var s := Scan(Parser([], marker), frames, false);
    var body := frame[2..|frame| - 1];
    assert EndsWithMarker(body);
    assert frame == [0xFF, 0xD8] + body + [0xD9];
    assert Feed(s, [0xFF, 0xD8]) == Scan(Parser([0xFF, 0xD8], false), frames, false) by {
      FeedOne(s, [], 0xFF);
      FeedOne(s, [0xFF], 0xD8);
      assert [] + [0xFF] == [0xFF] && [0xFF] + [0xD8] == [0xFF, 0xD8];
    }
    hide Feed, IsFrame, HasPair;
    FeedAppend(s, [0xFF, 0xD8], body);
    FeedBody(frames, body);
    FeedOne(s, [0xFF, 0xD8] + body, 0xD9);
  }

  lemma {:induction false} FeedStream(parts: seq<Part>)
    requires IsStream(parts)
    ensures Feed(Start, Text(parts)) == Scan(Between, Frames(parts), false)
  {
    if parts != [] {
      hide Feed, IsNoise, IsFrame;
      var front, last := parts[..|parts| - 1], parts[|parts| - 1];
      FeedStream(front);
      FeedAppend(Start, Text(front), last.noise);
      FeedNoise(Frames(front), last.noise);
      FeedAppend(Start, Text(front) + last.noise, last.frame);
      FeedFrame(Frames(front), EndsWithMarker(last.noise), last.frame);
    } else {
      NothingFed();
    }
  }

  // --------------------------------------------- and nothing else is split

  lemma DescribesStart()
    ensures Describes([], [], [], Start) && Whole([], [], [], Start) == []
  {
  }

  lemma DescribesNoise(parts: seq<Part>, noise: seq<byte>, body: seq<byte>, s: Scan, b: byte)
    requires Describes(parts, noise, body, s) && s.parser.frame == []
    requires !(s.parser.previousWasMarker && b == 0xD8)
    ensures Describes(parts, noise + [b], [], Fed(s, b))
    ensures Whole(parts, noise + [b], [], Fed(s, b)) == Whole(parts, noise, body, s) + [b]
  {
    hide HasPair, IsFrame;
    PairAtEnd(noise, b, 0xD8);
  }

  lemma DescribesSoi(parts: seq<Part>, noise: seq<byte>, body: seq<byte>, s: Scan)
    requires Describes(parts, noise, body, s) && s.parser.frame == [] && s.parser.previousWasMarker
    ensures var front := noise[..|noise| - 1];
            && Describes(parts, front, [], Fed(s, 0xD8))
            && Whole(parts, front, [], Fed(s, 0xD8)) == Whole(parts, noise, body, s) + [0xD8]
  {
    var front := noise[..|noise| - 1];
    assert front + [0xFF] == noise;
    PairAtEnd(front, 0xFF, 0xD8);
    assert [0xFF] + [0xD8] == [0xFF, 0xD8] + [];
    assert !HasPair([], 0xFF, 0xD9);
    hide HasPair, IsFrame, Text;
    assert Whole(parts, front, [], Fed(s, 0xD8)) == Text(parts) + front + [0xFF, 0xD8];
    assert Whole(parts, noise, body, s) == Text(parts) + (front + [0xFF]);
  }

  lemma DescribesBody(parts: seq<Part>, noise: seq<byte>, body: seq<byte>, s: Scan, b: byte)
    requires Describes(parts, noise, body, s) && s.parser.frame != []
    requires !Fed(s, b).failed && !(s.parser.previousWasMarker && b == 0xD9)
    ensures Describes(parts, noise, body + [b], Fed(s, b))
    ensures Whole(parts, noise, body + [b], Fed(s, b)) == Whole(parts, noise, body, s) + [b]
  {
    hide HasPair, IsFrame, Text;
    PairAtEnd(body, b, 0xD9);
    assert [0xFF, 0xD8] + (body + [b]) == [0xFF, 0xD8] + body + [b];
  }

  lemma EndsFrame(body: seq<byte>)
    requires EndsWithMarker(body) && !HasPair(body, 0xFF, 0xD9) && |body| + 3 <= MAX_JPEG_BYTES
    ensures IsFrame([0xFF, 0xD8] + body + [0xD9])
  {
    var frame := [0xFF, 0xD8] + body + [0xD9];
    assert frame[2..|frame| - 1] == body;
  }

  lemma DescribesEoi(parts: seq<Part>, noise: seq<byte>, body: seq<byte>, s: Scan)
    requires Describes(parts, noise, body, s) && s.parser.frame != [] && s.parser.previousWasMarker
    requires !Fed(s, 0xD9).failed
    ensures var all := parts + [Part(noise, [0xFF, 0xD8] + body + [0xD9])];
            && Describes(all, [], [], Fed(s, 0xD9))
            && Whole(all, [], [], Fed(s, 0xD9)) == Whole(parts, noise, body, s) + [0xD9]
  {
    var frame := [0xFF, 0xD8] + body + [0xD9];
    var all := parts + [Part(noise, frame)];
    assert all[..|parts|] == parts;
    EndsFrame(body);
    assert IsNoise([]);
    hide HasPair, IsFrame;
    assert Text(all) == Text(parts) + noise + frame;
    assert Frames(all) == Frames(parts) + [frame];
  }

  lemma {:induction false} WhateverIsSplitIsDescribed(text: seq<byte>) returns (parts: seq<Part>, noise: seq<byte>, body: seq<byte>)
    requires !Feed(Start, text).failed
    ensures Describes(parts, noise, body, Feed(Start, text)) && Whole(parts, noise, body, Feed(Start, text)) == text
    decreases |text|
  {
    if text == [] {
      parts, noise, body := [], [], [];
      DescribesStart();
    } else {
      var front, b := text[..|text| - 1], text[|text| - 1];
      var s := Feed(Start, front);
      assert front + [b] == text;
      assert !s.failed by { hide Feed, Pushed; }
      parts, noise, body := WhateverIsSplitIsDescribed(front);
      hide Describes, Whole, Fed, Pushed;
      if s.parser.frame == [] && !(s.parser.previousWasMarker && b == 0xD8) {
        DescribesNoise(parts, noise, body, s, b);
        noise, body := noise + [b], [];
      } else if s.parser.frame == [] {
        DescribesSoi(parts, noise, body, s);
        noise, body := noise[..|noise| - 1], [];
      } else if s.parser.previousWasMarker && b == 0xD9 {
        DescribesEoi(parts, noise, body, s);
        parts, noise, body := parts + [Part(noise, [0xFF, 0xD8] + body + [0xD9])], [], [];
      } else {
        DescribesBody(parts, noise, body, s, b);
        body := body + [b];
      }
    }
  }

  /**
   * The splitter succeeds exactly on streams of frames between noise, and
   * gives exactly their frames: a stream is read in no other way.
   */
  lemma SplitsExactly(text: seq<byte>)
    ensures Splits(Feed(Start, text)) <==> exists parts, tail :: IsStream(parts) && IsNoise(tail) && text == Text(parts) + tail
    ensures forall parts, tail :: IsStream(parts) && IsNoise(tail) && text == Text(parts) + tail ==>
              Feed(Start, text).frames == Frames(parts)
  {
    hide Feed, IsStream, IsNoise;
    if Splits(Feed(Start, text)) {
      var parts, tail, body := WhateverIsSplitIsDescribed(text);
      assert IsStream(parts) && IsNoise(tail) && text == Text(parts) + tail;
    }
    forall parts, tail | IsStream(parts) && IsNoise(tail) && text == Text(parts) + tail
      ensures Splits(Feed(Start, text)) && Feed(Start, text).frames == Frames(parts)
    {
      FeedStream(parts);
      FeedAppend(Start, Text(parts), tail);
      FeedNoise(Frames(parts), tail);
    }
  }
}
