/** The size in a JPEG header, read without a decoder (sections B.1.1.2, B.1.1.4 and B.2.2 of
    ITU-T T.81). */
module JpegHeader {
  import opened Wrappers

  type Byte = x: int | 0 <= x < 256

  datatype Outcome = Size(width: nat, height: nat) | TooLarge | Invalid

  const SIDE_LIMIT := 16_000
  const AREA_LIMIT := 16_000_000

  function Dimensions(width: nat, height: nat): Outcome {
    if width == 0 || height == 0 then Invalid
    else if width > SIDE_LIMIT || height > SIDE_LIMIT || width * height > AREA_LIMIT then TooLarge
    else Size(width, height)
  }

  // ---- markers

  predicate Standalone(marker: Byte) {
    marker == 1 || 208 <= marker <= 215
  }

  /** The start-of-frame markers. */
  predicate FrameMarker(marker: Byte) {
    192 <= marker <= 207 && marker != 196 && marker != 200 && marker != 204
  }

  predicate Stops(marker: Byte) {
    marker == 217 || marker == 218 || marker == 0
  }

  function Word(high: Byte, low: Byte): nat {
    256 * high + low
  }

  // ---- the reader, on the bytes that are left

  /** The bytes after any fill. */
  function Unfilled(bytes: seq<Byte>): (rest: seq<Byte>)
    ensures |rest| <= |bytes|
  {
    if bytes != [] && bytes[0] == 255 then Unfilled(bytes[1..]) else bytes
  }

  function Walk(bytes: seq<Byte>): Outcome
    decreases |bytes|, 0
  {
    if bytes == [] || bytes[0] != 255 || Unfilled(bytes) == [] then Invalid
    else After(Unfilled(bytes)[0], Unfilled(bytes)[1..])
  }

  /** The rest of the walk, from the bytes after a marker. */
  function After(marker: Byte, body: seq<Byte>): Outcome
    decreases |body|, 1
  {
    if Stops(marker) then Invalid
    else if Standalone(marker) then Walk(body)
    else if |body| < 2 || Word(body[0], body[1]) < 2 || Word(body[0], body[1]) > |body| then Invalid
    else if FrameMarker(marker) then
      if Word(body[0], body[1]) < 8 then Invalid else Dimensions(Word(body[5], body[6]), Word(body[3], body[4]))
    else Walk(body[Word(body[0], body[1])..])
  }

  function Header(data: seq<Byte>): Outcome {
    if |data| < 4 || data[0] != 255 || data[1] != 216 then Invalid else Walk(data[2..])
  }

  method GetUint16(data: array<Byte>, offset: nat) returns (word: nat)
    requires offset + 2 <= data.Length
    ensures word == Word(data[offset], data[offset + 1])
  {
    word := Word(data[offset], data[offset + 1]);
  }

  method SkipFill(data: array<Byte>, offset: nat) returns (next: nat)
    requires offset <= data.Length
    ensures offset <= next <= data.Length && data[next..] == Unfilled(data[offset..])
    ensures next < data.Length ==> data[next] != 255
    ensures offset < data.Length && data[offset] == 255 ==> offset < next
  {
    next := offset;
    while next < data.Length && data[next] == 255
      invariant offset <= next <= data.Length
      invariant Unfilled(data[next..]) == Unfilled(data[offset..])
      invariant offset < data.Length && data[offset] == 255 ==> offset < next || next == offset
      decreases data.Length - next
    {
      assert data[next..][1..] == data[next + 1..];
      next := next + 1;
    }
  }

  method ImageHeader(data: array<Byte>) returns (outcome: Outcome)
    ensures outcome == Header(data[..])
  {
    var size := data.Length;
    if size < 4 || data[0] != 255 || data[1] != 216 {
      return Invalid;
    }
    assert data[..][2..] == data[2..];
    var offset := 2;
    while offset < size
      invariant offset <= size
      invariant Walk(data[offset..]) == Walk(data[2..])
      decreases size - offset
    {
      if data[offset] != 255 {
        return Invalid;
      }
      ghost var before := offset;
      offset := SkipFill(data, offset);
      if offset == size {
        return Invalid;
      }
      var marker := data[offset];
      assert data[offset..][1..] == data[offset + 1..];
      offset := offset + 1;
      assert Walk(data[before..]) == After(marker, data[offset..]);
      var found;
      offset, found := AfterMarker(data, offset, marker);
      if found.Some? {
        return found.value;
      }
    }
    return Invalid;
  }

  /** What follows a marker: the end of the search, or where it goes on. */
  method AfterMarker(data: array<Byte>, offset: nat, marker: Byte) returns (next: nat, found: Option<Outcome>)
    requires offset <= data.Length
    ensures offset <= next <= data.Length
    ensures After(marker, data[offset..]) == if found.Some? then found.value else Walk(data[next..])
  {
    var size := data.Length;
    next := offset;
    if marker == 217 || marker == 218 || marker == 0 {
      return next, Some(Invalid);
    }
    if marker == 1 || 208 <= marker <= 215 {
      return next, None;
    }
    if offset + 2 > size {
      return next, Some(Invalid);
    }
    var length := GetUint16(data, offset);
    if length < 2 || offset + length > size {
      return next, Some(Invalid);
    }
    if marker in [192, 193, 194, 195, 197, 198, 199, 201, 202, 203, 205, 206, 207] {
      if length < 8 {
        return next, Some(Invalid);
      }
      var width := GetUint16(data, offset + 5);
      var height := GetUint16(data, offset + 3);
      return next, Some(Dimensions(width, height));
    }
    next := offset + length;
    assert data[offset..][length..] == data[next..];
    found := None;
  }

  // ---- the writer

  /** What may stand before the frame header, each after any number of fill bytes. */
  datatype Segment = Bare(fill: nat, marker: Byte) | Sized(fill: nat, marker: Byte, payload: seq<Byte>)

  datatype Frame = Frame(fill: nat, marker: Byte, precision: Byte, height: nat, width: nat, components: seq<Byte>)

  predicate ValidSegment(segment: Segment) {
    match segment
    case Bare(_, marker) => Standalone(marker)
    case Sized(_, marker, payload) =>
      !Standalone(marker) && !FrameMarker(marker) && !Stops(marker) && marker != 255 && |payload| <= 65533
  }

  predicate ValidFrame(frame: Frame) {
    && FrameMarker(frame.marker) && frame.height < 0x1_0000 && frame.width < 0x1_0000
    && 0 < |frame.components| <= 65528
  }

  /** The byte before a marker, and `n` fill bytes more. */
  function Fill(n: nat): (bytes: seq<Byte>)
    ensures bytes != [] && bytes[0] == 255
  {
    if n == 0 then [255] else [255] + Fill(n - 1)
  }

  function Bytes16(word: nat): seq<Byte>
    requires word < 0x1_0000
  {
    [word / 256, word % 256]
  }

  function WriteSegment(segment: Segment): seq<Byte>
    requires ValidSegment(segment)
  {
    match segment
    case Bare(fill, marker) => Fill(fill) + [marker]
    case Sized(fill, marker, payload) => Fill(fill) + [marker] + Bytes16(2 + |payload|) + payload
  }

  function WriteSegments(segments: seq<Segment>): seq<Byte>
    requires forall i :: 0 <= i < |segments| ==> ValidSegment(segments[i])
  {
    if segments == [] then [] else WriteSegment(segments[0]) + WriteSegments(segments[1..])
  }

  function WriteFrame(frame: Frame): seq<Byte>
    requires ValidFrame(frame)
  {
    Fill(frame.fill) + [frame.marker] + FrameBody(frame)
  }

  function FrameBody(frame: Frame): seq<Byte>
    requires ValidFrame(frame)
  {
    Bytes16(7 + |frame.components|) + [frame.precision] + Bytes16(frame.height) + Bytes16(frame.width)
      + frame.components
  }

  function WriteFile(segments: seq<Segment>, frame: Frame, tail: seq<Byte>): seq<Byte>
    requires (forall i :: 0 <= i < |segments| ==> ValidSegment(segments[i])) && ValidFrame(frame)
  {
    [255, 216] + (WriteSegments(segments) + (WriteFrame(frame) + tail))
  }

  // ---- reading undoes writing

  /** What the reader sees of a marker, whatever fill precedes it. */
  lemma {:induction false} UnfilledFill(n: nat, rest: seq<Byte>)
    requires rest != [] && rest[0] != 255
    ensures Unfilled(Fill(n) + rest) == rest
    decreases n
  {
    if n == 0 {
      assert (Fill(0) + rest)[1..] == rest;
    } else {
      assert (Fill(n) + rest)[1..] == Fill(n - 1) + rest;
      UnfilledFill(n - 1, rest);
    }
  }

  lemma WalkMarker(n: nat, marker: Byte, body: seq<Byte>)
    requires marker != 255
    ensures Walk(Fill(n) + [marker] + body) == After(marker, body)
  {
    UnfilledFill(n, [marker] + body);
    assert Fill(n) + [marker] + body == Fill(n) + ([marker] + body);
    assert ([marker] + body)[1..] == body;
  }

  lemma WordOfBytes(word: nat)
    requires word < 0x1_0000
    ensures Word(Bytes16(word)[0], Bytes16(word)[1]) == word
  {
  }

  lemma WalkSegment(segment: Segment, rest: seq<Byte>)
    requires ValidSegment(segment)
    ensures Walk(WriteSegment(segment) + rest) == Walk(rest)
  {
    match segment
    case Bare(fill, marker) =>
      WalkMarker(fill, marker, rest);
    case Sized(fill, marker, payload) =>
      var length := 2 + |payload|;
      var body := Bytes16(length) + payload + rest;
      WordOfBytes(length);
      WalkMarker(fill, marker, body);
      assert WriteSegment(segment) + rest == Fill(fill) + [marker] + body;
      assert body[length..] == rest;
  }

  lemma WalkFrame(frame: Frame, tail: seq<Byte>)
    requires ValidFrame(frame)
    ensures Walk(WriteFrame(frame) + tail) == Dimensions(frame.width, frame.height)
  {
    var body := FrameBody(frame) + tail;
    WordOfBytes(7 + |frame.components|);
    WordOfBytes(frame.height);
    WordOfBytes(frame.width);
    WalkMarker(frame.fill, frame.marker, body);
    assert WriteFrame(frame) + tail == Fill(frame.fill) + [frame.marker] + body;
  }

  lemma {:induction false} WalkSegments(segments: seq<Segment>, rest: seq<Byte>)
    requires forall i :: 0 <= i < |segments| ==> ValidSegment(segments[i])
    ensures Walk(WriteSegments(segments) + rest) == Walk(rest)
    decreases |segments|
  {
    if segments == [] {
      assert WriteSegments(segments) + rest == rest;
    } else {
      WalkSegments(segments[1..], rest);
      WalkSegment(segments[0], WriteSegments(segments[1..]) + rest);
      assert WriteSegments(segments) + rest == WriteSegment(segments[0]) + (WriteSegments(segments[1..]) + rest);
    }
  }

  /** Whatever segments, markers and fill bytes precede the frame header and whatever follows
      it, the reader finds its size. */
  lemma ReadsWhatWasWritten(segments: seq<Segment>, frame: Frame, tail: seq<Byte>)
    requires (forall i :: 0 <= i < |segments| ==> ValidSegment(segments[i])) && ValidFrame(frame)
    ensures Header(WriteFile(segments, frame, tail)) == Dimensions(frame.width, frame.height)
  {
    var data := WriteFile(segments, frame, tail);
    assert data[2..] == WriteSegments(segments) + (WriteFrame(frame) + tail);
    WalkSegments(segments, WriteFrame(frame) + tail);
    WalkFrame(frame, tail);
  }

  /** The reader accepts nothing else: bytes that it gives a size to are a written file. */
  lemma AcceptsOnlyWritten(data: seq<Byte>) returns (segments: seq<Segment>, frame: Frame, tail: seq<Byte>)
    requires Header(data) != Invalid
    ensures forall i :: 0 <= i < |segments| ==> ValidSegment(segments[i])
    ensures ValidFrame(frame) && data == WriteFile(segments, frame, tail)
    ensures Header(data) == Dimensions(frame.width, frame.height)
  {
    segments, frame, tail := Parse(data[2..]);
    assert data == [255, 216] + data[2..];
    assert data == WriteFile(segments, frame, tail);
    ReadsWhatWasWritten(segments, frame, tail);
  }

  lemma {:induction false} FillBefore(bytes: seq<Byte>) returns (fill: nat)
    requires bytes != [] && bytes[0] == 255
    ensures bytes == Fill(fill) + Unfilled(bytes)
    decreases |bytes|
  {
    assert bytes == [255] + bytes[1..];
    if |bytes| > 1 && bytes[1] == 255 {
      fill := FillBefore(bytes[1..]);
      fill := fill + 1;
    } else {
      fill := 0;
    }
  }

  lemma {:induction false} Parse(bytes: seq<Byte>) returns (segments: seq<Segment>, frame: Frame, tail: seq<Byte>)
    requires Walk(bytes) != Invalid
    ensures forall i :: 0 <= i < |segments| ==> ValidSegment(segments[i])
    ensures ValidFrame(frame) && bytes == WriteSegments(segments) + (WriteFrame(frame) + tail)
    decreases |bytes|
  {
    var fill := FillBefore(bytes);
    var rest := Unfilled(bytes);
    var marker, body := rest[0], rest[1..];
    UnfilledHead(bytes);
    assert bytes == Fill(fill) + [marker] + body;
    if Standalone(marker) {
      segments, frame, tail := Parse(body);
      segments := AddSegment(Bare(fill, marker), segments, frame, tail);
    } else if FrameMarker(marker) {
      frame, tail := ParseFrame(fill, marker, body);
      segments := [];
      assert [] + (WriteFrame(frame) + tail) == WriteFrame(frame) + tail;
    } else {
      var length := Word(body[0], body[1]);
      segments, frame, tail := Parse(body[length..]);
      SizedBody(fill, marker, body);
      segments := AddSegment(Sized(fill, marker, body[2..length]), segments, frame, tail);
    }
  }

  lemma {:induction false} UnfilledHead(bytes: seq<Byte>)
    ensures Unfilled(bytes) != [] ==> Unfilled(bytes)[0] != 255
    decreases |bytes|
  {
    if bytes != [] && bytes[0] == 255 {
      UnfilledHead(bytes[1..]);
    }
  }

  lemma SizedBody(fill: nat, marker: Byte, body: seq<Byte>)
    requires |body| >= 2 && 2 <= Word(body[0], body[1]) <= |body|
    requires !Standalone(marker) && !FrameMarker(marker) && !Stops(marker) && marker != 255
    ensures var segment := Sized(fill, marker, body[2..Word(body[0], body[1])]);
            ValidSegment(segment)
            && Fill(fill) + [marker] + body == WriteSegment(segment) + body[Word(body[0], body[1])..]
  {
    var length := Word(body[0], body[1]);
    assert Bytes16(length) == body[..2];
    assert body == Bytes16(length) + body[2..length] + body[length..];
  }

  lemma ParseFrame(fill: nat, marker: Byte, body: seq<Byte>) returns (frame: Frame, tail: seq<Byte>)
    requires FrameMarker(marker) && |body| >= 8 && 8 <= Word(body[0], body[1]) <= |body|
    ensures ValidFrame(frame) && Fill(fill) + [marker] + body == WriteFrame(frame) + tail
  {
    var length := Word(body[0], body[1]);
    frame := Frame(fill, marker, body[2], Word(body[3], body[4]), Word(body[5], body[6]), body[7..length]);
    tail := body[length..];
    assert Bytes16(length) == body[..2] && Bytes16(frame.height) == body[3..5] && Bytes16(frame.width) == body[5..7];
    assert body == FrameBody(frame) + tail;
  }

  lemma AddSegment(segment: Segment, later: seq<Segment>, frame: Frame, tail: seq<Byte>)
    returns (segments: seq<Segment>)
    requires ValidSegment(segment) && (forall i :: 0 <= i < |later| ==> ValidSegment(later[i])) && ValidFrame(frame)
    ensures segments == [segment] + later && forall i :: 0 <= i < |segments| ==> ValidSegment(segments[i])
    ensures WriteSegments(segments) + (WriteFrame(frame) + tail)
            == WriteSegment(segment) + (WriteSegments(later) + (WriteFrame(frame) + tail))
  {
    segments := [segment] + later;
    assert segments[1..] == later;
  }
}
