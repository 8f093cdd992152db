/** Inserting and finding the XMP segment of a JPEG stream. */
module Jpeg {
  import opened Wrappers
  import opened Bytes

  datatype Error =
    | NotJpeg | SegmentTooLarge | MarkerMalformed | MarkerTruncated | SegmentTruncated | LengthMalformed
    | XmpSizeRejected

  const SOI: seq<Byte> := [0xff, 0xd8]
  const APP1: Byte := 0xe1
  const SOS: Byte := 0xda
  const EOI: Byte := 0xd9

  /** `http://ns.adobe.com/xap/1.0/` and its NUL */
  const HEADER: seq<Byte> :=
    [0x68, 0x74, 0x74, 0x70, 0x3A, 0x2F, 0x2F, 0x6E, 0x73, 0x2E, 0x61, 0x64, 0x6F, 0x62, 0x65, 0x2E, 0x63, 0x6F, 0x6D,
     0x2F, 0x78, 0x61, 0x70, 0x2F, 0x31, 0x2E, 0x30, 0x2F, 0x00]

  predicate Standalone(marker: Byte) {
    marker == 0x01 || 0xd0 <= marker <= 0xd7
  }

  function Bounded(xmp: seq<Byte>): Result<Option<seq<Byte>>, Error> {
    if 0 < |xmp| <= MAX_XMP_BYTES then Ok(Some(xmp)) else Err(XmpSizeRejected)
  }

  // ----- the marker stream

  /** One marker before the scan: `fill` optional 0xff bytes, the marker, and a payload unless it stands alone. */
  datatype RawSegment = RawSegment(fill: nat, marker: Byte, payload: seq<Byte>)

  type Segment = s: RawSegment |
    && s.marker !in {0xff, SOS, EOI}
    && |s.payload| + 2 < U16_LIMIT
    && (Standalone(s.marker) ==> s.payload == [])
    witness RawSegment(0, 0x01, [])

  function Fill(n: nat): (r: seq<Byte>)
    ensures |r| == n
  {
    if n == 0 then [] else [0xff] + Fill(n - 1)
  }

  function RenderSegment(s: Segment): (r: seq<Byte>) {
    Fill(s.fill + 1) + [s.marker] + if Standalone(s.marker) then [] else BigEndian16(|s.payload| + 2) + s.payload
  }

  function RenderAll(segments: seq<Segment>): (r: seq<Byte>) {
    if segments == [] then [] else RenderSegment(segments[0]) + RenderAll(segments[1..])
  }

  predicate IsXmp(s: Segment) {
    s.marker == APP1 && HEADER <= s.payload
  }

  function FirstXmp(segments: seq<Segment>): Option<seq<Byte>> {
    if segments == [] then None
    else if IsXmp(segments[0]) then Some(segments[0].payload[|HEADER|..])
    else FirstXmp(segments[1..])
  }

  // ----- the reader

  /** How many bytes of 0xff come first. */
  function FillLength(rest: seq<Byte>): (r: nat)
    ensures r <= |rest|
  {
    if rest != [] && rest[0] == 0xff then 1 + FillLength(rest[1..]) else 0
  }

  /** What follows a marker that does not stand alone: a length that counts itself, and the payload. */
  function ReadPayload(rest: seq<Byte>): (r: Result<seq<Byte>, Error>)
    ensures r.Ok? ==> |r.value| + 2 <= |rest|
  {
    if |rest| < 2 then Err(SegmentTruncated)
    else
      var length := FromBigEndian16(rest[..2]);
      if length < 2 then Err(LengthMalformed)
      else if |rest| < length then Err(SegmentTruncated)
      else Ok(rest[2..length])
  }

  /** One turn of the marker loop: an answer, or how much of the input it used. */
  datatype Step = Done(result: Result<Option<seq<Byte>>, Error>) | Next(used: nat)

  function ScanOne(rest: seq<Byte>): (r: Step)
    requires rest != []
    ensures r.Next? ==> 0 < r.used <= |rest|
  {
    if rest[0] != 0xff then Done(Err(MarkerMalformed))
    else
      var at := FillLength(rest);
      if at == |rest| then Done(Err(MarkerTruncated))
      else if rest[at] == SOS || rest[at] == EOI then Done(Ok(None))
      else if Standalone(rest[at]) then Next(at + 1)
      else match ReadPayload(rest[at + 1..])
        case Err(e) => Done(Err(e))
        case Ok(data) =>
          if rest[at] == APP1 && HEADER <= data then Done(Bounded(data[|HEADER|..])) else Next(at + 3 + |data|)
  }

  function Scan(rest: seq<Byte>): Result<Option<seq<Byte>>, Error>
    decreases |rest|
  {
    if rest == [] then Ok(None)
    else match ScanOne(rest)
      case Done(r) => r
      case Next(used) => Scan(rest[used..])
  }

  function Extract(bytes: seq<Byte>): Result<Option<seq<Byte>>, Error> {
    Scan(From(bytes, 2))
  }

  method SkipFill(bytes: seq<Byte>, position: nat) returns (r: nat)
    requires position <= |bytes|
    ensures r == position + FillLength(bytes[position..])
  {
    r := position;
    while r < |bytes| && bytes[r] == 0xff
      invariant position <= r <= |bytes|
      invariant r + FillLength(bytes[r..]) == position + FillLength(bytes[position..])
    {
      assert bytes[r..][1..] == bytes[r + 1..];
      r := r + 1;
    }
  }

  /** The body of the marker loop. */
  method ScanMarker(bytes: seq<Byte>, start: nat) returns (r: Step)
    requires start < |bytes|
    ensures r == ScanOne(bytes[start..])
  {
    ghost var rest := bytes[start..];
    if bytes[start] != 0xff {
      return Done(Err(MarkerMalformed));
    }
    var position := SkipFill(bytes, start);
    if position == |bytes| {
      return Done(Err(MarkerTruncated));
    }
    var marker := bytes[position];
    position := position + 1;
    assert marker == rest[position - start - 1];
    if marker == SOS || marker == EOI {
      return Done(Ok(None));
    }
    if Standalone(marker) {
      return Next(position - start);
    }
    assert bytes[position..] == rest[position - start..];
    var payload := ReadPayload(bytes[position..]);
    if payload.Err? {
      return Done(Err(payload.error));
    }
    var data := payload.value;
    if marker == APP1 && HEADER <= data {
      return Done(Bounded(data[|HEADER|..]));
    }
    return Next(position + 2 + |data| - start);
  }

  method ExtractJpeg(bytes: seq<Byte>) returns (r: Result<Option<seq<Byte>>, Error>)
    ensures r == Extract(bytes)
  {
    hide ScanOne;
    var position := 2;
    while position < |bytes|
      invariant 2 <= position && Extract(bytes) == Scan(From(bytes, position))
    {
      var step := ScanMarker(bytes, position);
      if step.Done? {
        return step.result;
      }
      assert bytes[position..][step.used..] == From(bytes, position + step.used);
      position := position + step.used;
    }
    return Ok(None);
  }

  // ----- the writer

  function NewXmp(xmp: seq<Byte>): (s: Segment)
    requires |HEADER| + |xmp| + 2 < U16_LIMIT
  {
    RawSegment(0, APP1, HEADER + xmp)
  }

  function Embed(bytes: seq<Byte>, xmp: seq<Byte>): Result<seq<Byte>, Error> {
    if !(SOI <= bytes) then Err(NotJpeg)
    else if |HEADER| + |xmp| + 2 >= U16_LIMIT then Err(SegmentTooLarge)
    else Ok(SOI + RenderSegment(NewXmp(xmp)) + bytes[2..])
  }

  // ----- what reader and writer guarantee

  /** The markers without a length: TEM and the eight restart markers. */
  lemma StandaloneIff(marker: Byte)
    ensures Standalone(marker) <==> marker == 1 || marker in {208, 209, 210, 211, 212, 213, 214, 215}
  {
  }

  lemma {:induction false} FillThenMarker(n: nat, tail: seq<Byte>)
    requires tail != [] && tail[0] != 0xff
    ensures FillLength(Fill(n) + tail) == n
  {
    if n == 0 {
      assert Fill(n) + tail == tail;
    } else {
      assert (Fill(n) + tail)[1..] == Fill(n - 1) + tail;
      FillThenMarker(n - 1, tail);
    }
  }

  lemma ReadRendered(payload: seq<Byte>, tail: seq<Byte>)
    requires |payload| + 2 < U16_LIMIT
    ensures ReadPayload(BigEndian16(|payload| + 2) + payload + tail) == Ok(payload)
  {
    var rest, length := BigEndian16(|payload| + 2) + payload + tail, |payload| + 2;
    BigEndian16RoundTrip(length);
    assert rest[..2] == BigEndian16(length) && rest[2..length] == payload;
  }

  lemma ScanSegment(s: Segment, tail: seq<Byte>)
    ensures ScanOne(RenderSegment(s) + tail) ==
      if IsXmp(s) then Done(Bounded(s.payload[|HEADER|..])) else Next(|RenderSegment(s)|)
  {
    hide FillLength, ReadPayload;
    var fill, rest := Fill(s.fill + 1), RenderSegment(s) + tail;
    var more := rest[|fill|..];
    assert rest == fill + more && more[0] == s.marker;
    FillThenMarker(s.fill + 1, more);
    if !Standalone(s.marker) {
      assert rest[|fill| + 1..] == BigEndian16(|s.payload| + 2) + s.payload + tail;
      ReadRendered(s.payload, tail);
    }
  }

  /** The reader finds the first XMP segment, fill bytes and lone markers notwithstanding, or scans on. */
  lemma {:induction false} ScanMeaning(segments: seq<Segment>, tail: seq<Byte>)
    ensures Scan(RenderAll(segments) + tail) ==
      match FirstXmp(segments) case Some(xmp) => Bounded(xmp) case None => Scan(tail)
  {
    if segments == [] {
      assert RenderAll(segments) + tail == tail;
    } else {
      var first, rest := RenderSegment(segments[0]), RenderAll(segments[1..]) + tail;
      assert RenderAll(segments) + tail == first + rest && (first + rest)[|first|..] == rest;
      ScanSegment(segments[0], rest);
      ScanMeaning(segments[1..], tail);
    }
  }

  /** Nothing of the source changes, and the newest record is the one that comes back. */
  lemma EmbedRoundTrip(bytes: seq<Byte>, xmp: seq<Byte>)
    ensures Embed(bytes, xmp).Ok? <==> SOI <= bytes && |xmp| <= 65504
    ensures Embed(bytes, xmp).Ok? ==>
      var output := Embed(bytes, xmp).value;
      && output[..2] == bytes[..2]
      && output[2 + |RenderSegment(NewXmp(xmp))|..] == bytes[2..]
      && Extract(output) == Bounded(xmp)
  {
    if Embed(bytes, xmp).Ok? {
      var output, segment := Embed(bytes, xmp).value, RenderSegment(NewXmp(xmp));
      assert From(output, 2) == segment + bytes[2..];
      ScanSegment(NewXmp(xmp), bytes[2..]);
    }
  }

  /** In front of the packet are the start, an APP1 marker, the length and the header; nothing else is new. */
  lemma EmbedShape(bytes: seq<Byte>, xmp: seq<Byte>)
    requires Embed(bytes, xmp).Ok?
    ensures var output := Embed(bytes, xmp).value;
      && |output| == |bytes| + 33 + |xmp|
      && output[2] == 0xff && output[3] == 0xe1 && output[6..35] == HEADER
      && output[35..35 + |xmp|] == xmp && output[35 + |xmp|..] == bytes[2..]
  {
    var front := [0xff, 0xe1] + BigEndian16(|HEADER| + |xmp| + 2);
    assert Fill(1) == [0xff] + Fill(0);
    assert RenderSegment(NewXmp(xmp)) == front + HEADER + xmp;
    var output := Embed(bytes, xmp).value;
    hide RenderSegment, NewXmp, Embed;
    assert output == SOI + front + HEADER + xmp + bytes[2..];
  }

  // ----- every successful scan

  /** A stream that begins with these segments. */
  predicate BeginsWith(rest: seq<Byte>, segments: seq<Segment>, tail: seq<Byte>) {
    rest == RenderAll(segments) + tail
  }

  /** The end of the input, or of the markers: fill bytes, and then the start of the scan or the end of the image. */
  predicate EndsMarkers(tail: seq<Byte>) {
    tail == [] || (tail[0] == 0xff && FillLength(tail) < |tail| && tail[FillLength(tail)] in {SOS, EOI})
  }

  lemma {:induction false} FillMeaning(rest: seq<Byte>)
    ensures var at := FillLength(rest);
      rest[..at] == Fill(at) && (at < |rest| ==> rest[at] != 0xff)
  {
    if rest != [] && rest[0] == 0xff {
      FillMeaning(rest[1..]);
      var at := FillLength(rest);
      assert rest[..at] == [rest[0]] + rest[1..][..at - 1];
    }
  }

  lemma PayloadMeaning(rest: seq<Byte>)
    requires ReadPayload(rest).Ok?
    ensures var data := ReadPayload(rest).value;
      |data| + 2 < U16_LIMIT && BigEndian16(|data| + 2) + data == rest[..|data| + 2]
  {
    var data := ReadPayload(rest).value;
    assert BigEndian16(FromBigEndian16(rest[..2])) == rest[..2];
    assert rest[..|data| + 2] == rest[..2] + data;
  }

  /** What one turn of the loop used is a segment other than XMP; what it answered with, if anything, is one of XMP. */
  lemma StepMeaning(rest: seq<Byte>) returns (s: Segment)
    requires rest != []
    ensures ScanOne(rest).Next? ==> !IsXmp(s) && RenderSegment(s) == rest[..ScanOne(rest).used]
    ensures ScanOne(rest).Done? && ScanOne(rest).result.Ok? && ScanOne(rest).result.value.Some? ==>
      && RenderSegment(s) <= rest && IsXmp(s)
      && ScanOne(rest).result == Bounded(s.payload[|HEADER|..])
    ensures ScanOne(rest) == Done(Ok(None)) ==> EndsMarkers(rest)
  {
    hide ReadPayload, BigEndian16;
    s := RawSegment(0, 0x01, []);
    FillMeaning(rest);
    var at := FillLength(rest);
    if rest[0] == 0xff && at < |rest| && rest[at] !in {SOS, EOI} {
      var after := rest[at + 1..];
      if Standalone(rest[at]) {
        s := RawSegment(at - 1, rest[at], []);
        assert RenderSegment(s) == rest[..at] + [rest[at]] + [];
      } else if ReadPayload(after).Ok? {
        PayloadMeaning(after);
        var data := ReadPayload(after).value;
        s := RawSegment(at - 1, rest[at], data);
        assert rest[..at + 3 + |data|] == rest[..at] + [rest[at]] + after[..|data| + 2];
      }
    }
  }

  lemma RenderAllCons(s: Segment, segments: seq<Segment>)
    ensures RenderAll([s] + segments) == RenderSegment(s) + RenderAll(segments)
    ensures !IsXmp(s) ==> FirstXmp([s] + segments) == FirstXmp(segments)
    ensures IsXmp(s) ==> FirstXmp([s] + segments) == Some(s.payload[|HEADER|..])
  {
    assert ([s] + segments)[1..] == segments;
  }

  lemma {:induction false} ScanRead(rest: seq<Byte>) returns (segments: seq<Segment>, tail: seq<Byte>)
    requires Scan(rest).Ok?
    ensures BeginsWith(rest, segments, tail) && FirstXmp(segments) == Scan(rest).value
    ensures Scan(rest).value == None ==> EndsMarkers(tail)
    ensures Scan(rest).value.Some? ==> 0 < |Scan(rest).value.value| <= MAX_XMP_BYTES
    decreases |rest|
  {
    hide ScanOne, RenderSegment, RenderAll, FirstXmp, IsXmp, EndsMarkers;
    segments, tail := [], rest;
    NothingRead(rest);
    if rest != [] {
      var s := StepMeaning(rest);
      match ScanOne(rest)
      case Done(r) =>
        if r.value.Some? {
          segments, tail := [s], rest[|RenderSegment(s)|..];
          RenderAllCons(s, []);
          assert [s] + [] == [s];
        }
      case Next(used) =>
        var more, left := ScanRead(rest[used..]);
        segments, tail := [s] + more, left;
        RenderAllCons(s, more);
        assert rest == rest[..used] + rest[used..];
    }
  }

  lemma NothingRead(rest: seq<Byte>)
    ensures BeginsWith(rest, [], rest) && FirstXmp([]) == None && EndsMarkers([])
  {
  }

  /**
   * A packet is found exactly when segments stand in front of which it is the first of XMP, and it is within the
   * bound.
   */
  lemma FoundIff(rest: seq<Byte>, xmp: seq<Byte>)
    ensures Scan(rest) == Ok(Some(xmp)) <==>
      && 0 < |xmp| <= MAX_XMP_BYTES
      && exists segments, tail :: BeginsWith(rest, segments, tail) && FirstXmp(segments) == Some(xmp)
  {
    hide Scan, FirstXmp;
    if Scan(rest) == Ok(Some(xmp)) {
      var segments, tail := ScanRead(rest);
      assert BeginsWith(rest, segments, tail);
    }
    if segments, tail :| BeginsWith(rest, segments, tail) && FirstXmp(segments) == Some(xmp) {
      ScanMeaning(segments, tail);
    }
  }

  /** There is none exactly when segments of other kinds lead to the end of the markers. */
  lemma NoneIff(rest: seq<Byte>)
    ensures Scan(rest) == Ok(None) <==>
      exists segments, tail :: BeginsWith(rest, segments, tail) && FirstXmp(segments) == None && EndsMarkers(tail)
  {
    hide Scan, FirstXmp, EndsMarkers;
    if Scan(rest) == Ok(None) {
      var segments, tail := ScanRead(rest);
      assert BeginsWith(rest, segments, tail);
    }
    if segments, tail :| BeginsWith(rest, segments, tail) && FirstXmp(segments) == None && EndsMarkers(tail) {
      ScanMeaning(segments, tail);
      ScanEnd(tail);
    }
  }

  lemma ScanEnd(tail: seq<Byte>)
    requires EndsMarkers(tail)
    ensures Scan(tail) == Ok(None)
  {
  }

  /** Embedding over an embedding is not embedding once: the newer record is found, and the older stays behind it. */
  lemma EmbedAgain(bytes: seq<Byte>, older: seq<Byte>, newer: seq<Byte>)
    requires Embed(bytes, older).Ok? && Embed(bytes, newer).Ok?
    ensures var twice := Embed(Embed(bytes, older).value, newer);
      && twice.Ok?
      && twice.value == SOI + RenderSegment(NewXmp(newer)) + RenderSegment(NewXmp(older)) + bytes[2..]
      && twice.value != Embed(bytes, newer).value
      && Extract(twice.value) == Bounded(newer)
  {
    hide RenderSegment, Extract;
    var first := Embed(bytes, older).value;
    var twice := Embed(first, newer);
    assert first[2..] == RenderSegment(NewXmp(older)) + bytes[2..];
    EmbedRoundTrip(first, newer);
    SegmentSize(NewXmp(older));
    assert twice.value == SOI + RenderSegment(NewXmp(newer)) + (RenderSegment(NewXmp(older)) + bytes[2..]);
  }

  lemma SegmentSize(s: Segment)
    ensures |RenderSegment(s)| > 0
  {
  }
}
