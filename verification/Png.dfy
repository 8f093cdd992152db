/** Replacing the XMP chunk of a PNG datastream. */
module Png {
  import opened Wrappers
  import opened Bytes
  import opened Checksums

  datatype Error =
    | NotPng | HeaderTruncated | DataTruncated | ChecksumTruncated | NoIend | ChunkTooLarge
    | MalformedXmp | MalformedText | XmpSizeRejected

  const SIGNATURE: seq<Byte> := [0x89, 0x50, 0x4E, 0x47, 0x0D, 0x0A, 0x1A, 0x0A]
  const IEND: seq<Byte> := [0x49, 0x45, 0x4E, 0x44]
  const ITXT: seq<Byte> := [0x69, 0x54, 0x58, 0x74]

  /** `XML:com.adobe.xmp` */
  const KEYWORD: seq<Byte> :=
    [0x58, 0x4D, 0x4C, 0x3A, 0x63, 0x6F, 0x6D, 0x2E, 0x61, 0x64, 0x6F, 0x62, 0x65, 0x2E, 0x78, 0x6D, 0x70]

  datatype RawChunk = RawChunk(kind: seq<Byte>, data: seq<Byte>, checksum: seq<Byte>)

  type Chunk = c: RawChunk | |c.kind| == 4 && |c.data| < U32_LIMIT && |c.checksum| == 4
    witness RawChunk([0, 0, 0, 0], [], [0, 0, 0, 0])

  // ----- the datastream grammar and its reader

  function RenderChunk(c: Chunk): (r: seq<Byte>) {
    BigEndian32(|c.data|) + c.kind + c.data + c.checksum
  }

  function RenderAll(chunks: seq<Chunk>): (r: seq<Byte>) {
    if chunks == [] then [] else RenderChunk(chunks[0]) + RenderAll(chunks[1..])
  }

  function ReadChunk(rest: seq<Byte>): (r: Result<(Chunk, nat), Error>)
    ensures r.Ok? ==> 12 <= r.value.1 <= |rest|
  {
    if |rest| < 8 then Err(HeaderTruncated)
    else
      var length := FromBigEndian32(rest[..4]);
      if |rest| < 8 + length then Err(DataTruncated)
      else if |rest| < 12 + length then Err(ChecksumTruncated)
      else Ok((RawChunk(rest[4..8], rest[8..8 + length], rest[8 + length..12 + length]), 12 + length))
  }

  /** The chunks that can be read, and what stops the walk before the end of the input. */
  datatype Walk = Walk(chunks: seq<Chunk>, fault: Option<Error>)

  function WalkFrom(rest: seq<Byte>): (r: Walk)
    decreases |rest|
  {
    if rest == [] then Walk([], None)
    else match ReadChunk(rest)
      case Err(e) => Walk([], Some(e))
      case Ok((chunk, used)) =>
        var tail := WalkFrom(rest[used..]);
        Walk([chunk] + tail.chunks, tail.fault)
  }

  lemma ReadIff(rest: seq<Byte>, c: Chunk)
    ensures ReadChunk(rest).Ok? && ReadChunk(rest).value.0 == c <==> RenderChunk(c) <= rest
    ensures RenderChunk(c) <= rest ==> ReadChunk(rest) == Ok((c, |RenderChunk(c)|))
  {
    hide ReadChunk, RenderChunk;
    if ReadChunk(rest).Ok? && ReadChunk(rest).value.0 == c {
      ReadStands(rest);
    }
    if RenderChunk(c) <= rest {
      StandingReads(rest, c);
    }
  }

  lemma ReadStands(rest: seq<Byte>)
    requires ReadChunk(rest).Ok?
    ensures RenderChunk(ReadChunk(rest).value.0) <= rest
  {
    hide BigEndian32, FromBigEndian32;
    var c := ReadChunk(rest).value.0;
    var end := |RenderChunk(c)|;
    BigEndian32Inverse(rest[..4]);
    assert rest[..end] == rest[..4] + rest[4..8] + rest[8..8 + |c.data|] + rest[8 + |c.data|..end];
  }

  lemma StandingReads(rest: seq<Byte>, c: Chunk)
    requires RenderChunk(c) <= rest
    ensures ReadChunk(rest) == Ok((c, |RenderChunk(c)|))
  {
    hide BigEndian32, FromBigEndian32;
    BigEndian32RoundTrip(|c.data|);
    FourParts(BigEndian32(|c.data|), c.kind, c.data, c.checksum, rest);
  }

  lemma FourParts(a: seq<Byte>, b: seq<Byte>, c: seq<Byte>, d: seq<Byte>, whole: seq<Byte>)
    requires a + b + c + d <= whole
    ensures var i, j, k := |a|, |a| + |b|, |a| + |b| + |c|;
      && k + |d| <= |whole|
      && whole[..i] == a && whole[i..j] == b && whole[j..k] == c && whole[k..k + |d|] == d
  {
    var front := a + b + c + d;
    assert whole == front + whole[|front|..];
  }

  /** A datastream is read without fault exactly when it is the chunks one after the other. */
  lemma {:induction false} WalkIff(rest: seq<Byte>, chunks: seq<Chunk>)
    ensures WalkFrom(rest) == Walk(chunks, None) <==> rest == RenderAll(chunks)
    decreases |chunks|
  {
    hide ReadChunk;
    if chunks != [] && rest != [] {
      var c := chunks[0];
      ReadIff(rest, c);
      if ReadChunk(rest).Ok? {
        var (found, used) := ReadChunk(rest).value;
        var tail := WalkFrom(rest[used..]);
        WalkIff(rest[used..], chunks[1..]);
        assert chunks == [c] + chunks[1..] && ([found] + tail.chunks)[1..] == tail.chunks;
        if found == c {
          assert rest == RenderChunk(c) + rest[used..];
        }
      }
      if rest == RenderAll(chunks) {
        assert RenderChunk(c) <= rest;
        assert rest[|RenderChunk(c)|..] == RenderAll(chunks[1..]);
      }
    }
  }

  // ----- the rewriter

  predicate IsXmp(c: Chunk) {
    c.kind == ITXT && KEYWORD <= c.data && |KEYWORD| < |c.data| && c.data[|KEYWORD|] == 0
  }

  function XmpData(xmp: seq<Byte>): seq<Byte> {
    KEYWORD + [0, 0, 0, 0, 0] + xmp
  }

  function NewXmp(xmp: seq<Byte>): (c: Chunk)
    requires |XmpData(xmp)| < U32_LIMIT
  {
    RawChunk(ITXT, XmpData(xmp), Checksum(ITXT + XmpData(xmp)))
  }

  function Strip(chunks: seq<Chunk>): seq<Chunk> {
    if chunks == [] then []
    else (if IsXmp(chunks[0]) then [] else [chunks[0]]) + Strip(chunks[1..])
  }

  predicate HasIend(chunks: seq<Chunk>) {
    exists c :: c in chunks && c.kind == IEND
  }

  /** `chunks` with `extra` before the first IEND. */
  function Insert(chunks: seq<Chunk>, extra: Chunk): seq<Chunk> {
    if chunks == [] then []
    else if chunks[0].kind == IEND then [extra] + chunks
    else [chunks[0]] + Insert(chunks[1..], extra)
  }

  function Embed(bytes: seq<Byte>, xmp: seq<Byte>): Result<seq<Byte>, Error> {
    if !(SIGNATURE <= bytes) then Err(NotPng)
    else
      var walk := WalkFrom(bytes[8..]);
      if HasIend(walk.chunks) && |XmpData(xmp)| >= U32_LIMIT then Err(ChunkTooLarge)
      else if walk.fault.Some? then Err(walk.fault.value)
      else if !HasIend(walk.chunks) then Err(NoIend)
      else Ok(SIGNATURE + RenderAll(Insert(Strip(walk.chunks), NewXmp(xmp))))
  }

  lemma {:induction false} RenderAllConcat(left: seq<Chunk>, right: seq<Chunk>)
    ensures RenderAll(left + right) == RenderAll(left) + RenderAll(right)
  {
    if left == [] {
      assert left + right == right;
    } else {
      assert (left + right)[1..] == left[1..] + right;
      RenderAllConcat(left[1..], right);
    }
  }

  lemma {:induction false} StripConcat(left: seq<Chunk>, right: seq<Chunk>)
    ensures Strip(left + right) == Strip(left) + Strip(right)
  {
    hide IsXmp, HasIend;
    if left == [] {
      assert left + right == right;
    } else {
      var kept := if IsXmp(left[0]) then [] else [left[0]];
      var rest: seq<Chunk> := left[1..];
      assert (left + right)[1..] == rest + right;
      StripConcat(rest, right);
      assert kept + (Strip(rest) + Strip(right)) == kept + Strip(rest) + Strip(right);
    }
  }

  lemma {:induction false} StripIend(chunks: seq<Chunk>)
    ensures HasIend(Strip(chunks)) == HasIend(chunks)
  {
    hide IsXmp, HasIend;
    if chunks != [] {
      StripIend(chunks[1..]);
      assert chunks == [chunks[0]] + chunks[1..];
      HasIendAfter(chunks[0], chunks[1..]);
      HasIendAfter(chunks[0], Strip(chunks[1..]));
      XmpIsNoIend(chunks[0]);
      assert [] + Strip(chunks[1..]) == Strip(chunks[1..]);
    }
  }

  lemma XmpIsNoIend(c: Chunk)
    ensures IsXmp(c) ==> c.kind != IEND
  {
  }

  lemma HasIendAfter(c: Chunk, rest: seq<Chunk>)
    ensures HasIend([c] + rest) <==> c.kind == IEND || HasIend(rest)
  {
  }

  lemma {:induction false} InsertConcat(left: seq<Chunk>, right: seq<Chunk>, extra: Chunk)
    ensures Insert(left + right, extra) ==
      if HasIend(left) then Insert(left, extra) + right else left + Insert(right, extra)
  {
    NoIendYet();
    hide HasIend;
    if left == [] {
      assert left + right == right;
    } else {
      HasIendAfter(left[0], left[1..]);
      assert (left + right)[1..] == left[1..] + right;
      InsertConcat(left[1..], right, extra);
      assert left == [left[0]] + left[1..];
    }
  }

  /** What the chunks read so far have become. */
  function Target(seen: seq<Chunk>, extra: Chunk): seq<Chunk> {
    if HasIend(seen) then Insert(Strip(seen), extra) else Strip(seen)
  }

  lemma TargetStep(seen: seq<Chunk>, found: Chunk, extra: Chunk)
    ensures HasIend(seen + [found]) <==> HasIend(seen) || found.kind == IEND
    ensures Target(seen + [found], extra) ==
      Target(seen, extra)
        + (if found.kind == IEND && !HasIend(seen) then [extra] else [])
        + (if IsXmp(found) then [] else [found])
  {
    var kept: seq<Chunk> := if IsXmp(found) then [] else [found];
    StripConcat(seen, [found]);
    StripIend(seen);
    assert Strip([found]) == kept;
    InsertConcat(Strip(seen), kept, extra);
  }

  lemma RenderSnoc(chunks: seq<Chunk>, c: Chunk)
    ensures SIGNATURE + RenderAll(chunks) + RenderChunk(c) == SIGNATURE + RenderAll(chunks + [c])
  {
    RenderAllConcat(chunks, [c]);
    assert RenderAll([c]) == RenderChunk(c);
  }

  /** The rewriting loop as a recursion over what is left of the input. */
  function CopyFrom(rest: seq<Byte>, output: seq<Byte>, inserted: bool, xmp: seq<Byte>): Result<seq<Byte>, Error>
    decreases |rest|
  {
    if rest == [] then (if inserted then Ok(output) else Err(NoIend))
    else
      var (found, used) :- ReadChunk(rest);
      var first := found.kind == IEND && !inserted;
      if first && |XmpData(xmp)| >= U32_LIMIT then Err(ChunkTooLarge)
      else
        var grown := if first then output + RenderChunk(NewXmp(xmp)) else output;
        CopyFrom(rest[used..], if IsXmp(found) then grown else grown + rest[..used], inserted || first, xmp)
  }

  lemma {:induction false} CopyMeaning(rest: seq<Byte>, seen: seq<Chunk>, xmp: seq<Byte>, extra: Chunk)
    requires HasIend(seen) ==> |XmpData(xmp)| < U32_LIMIT
    requires |XmpData(xmp)| < U32_LIMIT ==> extra == NewXmp(xmp)
    ensures var chunks, fault := seen + WalkFrom(rest).chunks, WalkFrom(rest).fault;
      CopyFrom(rest, SIGNATURE + RenderAll(Target(seen, extra)), HasIend(seen), xmp) ==
        if HasIend(chunks) && |XmpData(xmp)| >= U32_LIMIT then Err(ChunkTooLarge)
        else if fault.Some? then Err(fault.value)
        else if !HasIend(chunks) then Err(NoIend)
        else Ok(SIGNATURE + RenderAll(Target(chunks, extra)))
    decreases |rest|
  {
    var walk := WalkFrom(rest);
    if walk.chunks == [] {
      assert seen + walk.chunks == seen;
    }
    if rest != [] && ReadChunk(rest).Ok? {
      var (found, used) := ReadChunk(rest).value;
      var tail := WalkFrom(rest[used..]);
      assert seen + walk.chunks == seen + [found] + tail.chunks;
      assert found in seen + walk.chunks by {
        assert (seen + walk.chunks)[|seen|] == found;
      }
      var first := found.kind == IEND && !HasIend(seen);
      if !(first && |XmpData(xmp)| >= U32_LIMIT) {
        GrownOutput(rest, seen, xmp, extra);
        CopyMeaning(rest[used..], seen + [found], xmp, extra);
      }
    }
  }

  lemma GrownOutput(rest: seq<Byte>, seen: seq<Chunk>, xmp: seq<Byte>, extra: Chunk)
    requires ReadChunk(rest).Ok?
    requires ReadChunk(rest).value.0.kind == IEND && !HasIend(seen) ==> |XmpData(xmp)| < U32_LIMIT
    requires |XmpData(xmp)| < U32_LIMIT ==> extra == NewXmp(xmp)
    ensures var (found, used) := ReadChunk(rest).value;
      var first := found.kind == IEND && !HasIend(seen);
      var output := SIGNATURE + RenderAll(Target(seen, extra));
      var grown := if first then output + RenderChunk(NewXmp(xmp)) else output;
      && HasIend(seen + [found]) == (HasIend(seen) || first)
      && (if IsXmp(found) then grown else grown + rest[..used]) == SIGNATURE + RenderAll(Target(seen + [found], extra))
  {
    hide ReadChunk, RenderChunk, RenderAll, NewXmp, Target;
    var (found, used) := ReadChunk(rest).value;
    ReadIff(rest, found);
    TargetStep(seen, found, extra);
    var target := Target(seen, extra);
    var first := found.kind == IEND && !HasIend(seen);
    if first {
      RenderSnoc(target, extra);
      RenderSnoc(target + [extra], found);
    } else {
      RenderSnoc(target, found);
      assert target + [] == target;
    }
  }

  method EmbedPng(bytes: seq<Byte>, xmp: seq<Byte>) returns (r: Result<seq<Byte>, Error>)
    ensures r == Embed(bytes, xmp)
  {
    hide ReadChunk, RenderChunk, NewXmp, IsXmp, WalkFrom, Strip, Insert, RenderAll;
    if !(SIGNATURE <= bytes) {
      return Err(NotPng);
    }
    EmbedIsCopy(bytes, xmp);
    var output, position, inserted := SIGNATURE, 8, false;
    while position < |bytes|
      invariant 8 <= position <= |bytes|
      invariant CopyFrom(bytes[8..], SIGNATURE, false, xmp) == CopyFrom(bytes[position..], output, inserted, xmp)
    {
      var chunk :- ReadChunk(bytes[position..]);
      var (found, used) := chunk;
      assert bytes[position..][used..] == bytes[position + used..];
      assert bytes[position..][..used] == bytes[position..position + used];
      if found.kind == IEND && !inserted {
        if |XmpData(xmp)| >= U32_LIMIT {
          return Err(ChunkTooLarge);
        }
        output := output + RenderChunk(NewXmp(xmp));
        inserted := true;
      }
      if !IsXmp(found) {
        output := output + bytes[position..position + used];
      }
      position := position + used;
    }
    if !inserted || position != |bytes| {
      return Err(NoIend);
    }
    return Ok(output);
  }

  lemma EmbedIsCopy(bytes: seq<Byte>, xmp: seq<Byte>)
    requires SIGNATURE <= bytes
    ensures Embed(bytes, xmp) == CopyFrom(bytes[8..], SIGNATURE, false, xmp)
  {
    var none: seq<Chunk> := [];
    CopyMeaning(bytes[8..], none, xmp,
      if |XmpData(xmp)| < U32_LIMIT then NewXmp(xmp) else RawChunk(ITXT, [], [0, 0, 0, 0]));
    assert SIGNATURE + RenderAll(none) == SIGNATURE;
    assert none + WalkFrom(bytes[8..]).chunks == WalkFrom(bytes[8..]).chunks;
  }

  // ----- what the rewriter guarantees

  /** The text of the first XMP chunk; nothing after it is looked at. */
  function ReadXmp(c: Chunk): Result<seq<Byte>, Error>
    requires IsXmp(c)
  {
    if |c.data| < 20 || c.data[18..20] != [0, 0] then Err(MalformedXmp)
    else
      var language :- TextEnd(c.data, 20);
      var keyword :- TextEnd(c.data, language);
      var xmp := c.data[keyword..];
      if xmp == [] || |xmp| > MAX_XMP_BYTES then Err(XmpSizeRejected) else Ok(xmp)
  }

  /** Just past the NUL that ends the text at `start`. */
  function TextEnd(data: seq<Byte>, start: nat): (r: Result<nat, Error>)
    ensures r.Ok? ==> start < r.value <= |data| && data[r.value - 1] == 0 && 0 !in data[start..r.value - 1]
    ensures r.Err? ==> start > |data| || 0 !in data[start..]
    decreases |data| - start
  {
    if start >= |data| then Err(MalformedText)
    else if data[start] == 0 then Ok(start + 1)
    else TextEnd(data, start + 1)
  }

  function FirstXmp(chunks: seq<Chunk>): (r: Option<Chunk>)
    ensures r.Some? ==> IsXmp(r.value)
  {
    if chunks == [] then None else if IsXmp(chunks[0]) then Some(chunks[0]) else FirstXmp(chunks[1..])
  }

  function FoundXmp(c: Chunk): Result<Option<seq<Byte>>, Error>
    requires IsXmp(c)
  {
    match ReadXmp(c)
    case Ok(xmp) => Ok(Some(xmp))
    case Err(e) => Err(e)
  }

  function ExtractFrom(walk: Walk): Result<Option<seq<Byte>>, Error> {
    match FirstXmp(walk.chunks)
    case Some(c) => FoundXmp(c)
    case None => if walk.fault.Some? then Err(walk.fault.value) else Ok(None)
  }

  /** Extraction does not check the signature. */
  function Extract(bytes: seq<Byte>): Result<Option<seq<Byte>>, Error> {
    ExtractFrom(WalkFrom(From(bytes, 8)))
  }

  lemma ExtractStep(rest: seq<Byte>)
    requires rest != []
    ensures ReadChunk(rest).Err? ==> ExtractFrom(WalkFrom(rest)) == Err(ReadChunk(rest).error)
    ensures ReadChunk(rest).Ok? ==>
      var found, used := ReadChunk(rest).value.0, ReadChunk(rest).value.1;
      ExtractFrom(WalkFrom(rest)) == if IsXmp(found) then FoundXmp(found) else ExtractFrom(WalkFrom(rest[used..]))
  {
    hide ReadChunk, ReadXmp, IsXmp, FoundXmp;
    if ReadChunk(rest).Ok? {
      var (found, used) := ReadChunk(rest).value;
      assert ([found] + WalkFrom(rest[used..]).chunks)[1..] == WalkFrom(rest[used..]).chunks;
    }
  }

  method ExtractPng(bytes: seq<Byte>) returns (r: Result<Option<seq<Byte>>, Error>)
    ensures r == Extract(bytes)
  {
    hide ReadChunk, ReadXmp, IsXmp, WalkFrom;
    var position := 8;
    while position < |bytes|
      invariant 8 <= position
      invariant Extract(bytes) == ExtractFrom(WalkFrom(From(bytes, position)))
    {
      ExtractStep(bytes[position..]);
      var chunk :- ReadChunk(bytes[position..]);
      var (found, used) := chunk;
      if IsXmp(found) {
        var xmp :- ReadXmp(found);
        return Ok(Some(xmp));
      }
      assert bytes[position..][used..] == From(bytes, position + used);
      position := position + used;
    }
    NothingLeft();
    return Ok(None);
  }

  lemma NothingLeft()
    ensures ExtractFrom(WalkFrom([])) == Ok(None)
  {
  }

  lemma ReadNewXmp(xmp: seq<Byte>)
    requires |XmpData(xmp)| < U32_LIMIT
    ensures IsXmp(NewXmp(xmp))
    ensures ReadXmp(NewXmp(xmp)) == if 0 < |xmp| <= MAX_XMP_BYTES then Ok(xmp) else Err(XmpSizeRejected)
  {
    var data := XmpData(xmp);
    assert data[..17] == KEYWORD && data[17] == 0 && data[18..20] == [0, 0] && data[20] == 0 && data[21] == 0;
    assert data[22..] == xmp;
  }

  predicate NoXmp(chunks: seq<Chunk>) {
    forall c :: c in chunks ==> !IsXmp(c)
  }

  lemma {:induction false} StripMeaning(chunks: seq<Chunk>)
    ensures NoXmp(Strip(chunks)) && HasIend(Strip(chunks)) == HasIend(chunks)
    ensures NoXmp(chunks) ==> Strip(chunks) == chunks
  {
    if chunks != [] {
      StripMeaning(chunks[1..]);
      assert chunks == [chunks[0]] + chunks[1..];
    }
  }

  lemma {:induction false} InsertMeaning(chunks: seq<Chunk>, extra: Chunk)
    requires NoXmp(chunks) && HasIend(chunks) && IsXmp(extra)
    ensures FirstXmp(Insert(chunks, extra)) == Some(extra)
    ensures Strip(Insert(chunks, extra)) == chunks
    ensures HasIend(Insert(chunks, extra))
  {
    var c, rest := chunks[0], chunks[1..];
    assert chunks == [c] + rest;
    StripMeaning(chunks);
    if c.kind == IEND {
      assert ([extra] + chunks)[1..] == chunks;
    } else {
      InsertMeaning(rest, extra);
      var all := [c] + Insert(rest, extra);
      assert all[1..] == Insert(rest, extra);
    }
  }

  lemma ExtractEmbedded(target: seq<Chunk>, xmp: seq<Byte>)
    requires |XmpData(xmp)| < U32_LIMIT && target != [] && FirstXmp(target) == Some(NewXmp(xmp))
    ensures Extract(SIGNATURE + RenderAll(target)) ==
      if 0 < |xmp| <= MAX_XMP_BYTES then Ok(Some(xmp)) else Err(XmpSizeRejected)
  {
    ReadNewXmp(xmp);
    assert From(SIGNATURE + RenderAll(target), 8) == RenderAll(target);
    WalkIff(RenderAll(target), target);
  }

  /**
   * Round trip. The output is the signature and the source chunks without their XMP, with the new
   * record before the first IEND; the record comes back whenever its size allows it.
   */
  lemma EmbedRoundTrip(bytes: seq<Byte>, xmp: seq<Byte>)
    requires Embed(bytes, xmp).Ok?
    ensures var output := Embed(bytes, xmp).value;
      var source := WalkFrom(bytes[8..]).chunks;
      var kept := Strip(source);
      && bytes == SIGNATURE + RenderAll(source)
      && NoXmp(kept) && HasIend(kept)
      && SIGNATURE <= output
      && WalkFrom(output[8..]) == Walk(Insert(kept, NewXmp(xmp)), None)
      && Extract(output) == if 0 < |xmp| <= MAX_XMP_BYTES then Ok(Some(xmp)) else Err(XmpSizeRejected)
  {
    var output := Embed(bytes, xmp).value;
    var source := WalkFrom(bytes[8..]).chunks;
    var target := Insert(Strip(source), NewXmp(xmp));
    assert bytes == SIGNATURE + RenderAll(source) by {
      WalkIff(bytes[8..], source);
      assert bytes == SIGNATURE + bytes[8..];
    }
    StripMeaning(source);
    assert FirstXmp(target) == Some(NewXmp(xmp)) by {
      ReadNewXmp(xmp);
      InsertMeaning(Strip(source), NewXmp(xmp));
    }
    assert output == SIGNATURE + RenderAll(target);
    assert output[8..] == RenderAll(target);
    WalkIff(RenderAll(target), target);
    ExtractEmbedded(target, xmp);
  }

  /** Re-embedding over an embedding is embedding once, whatever the outcome. */
  lemma EmbedTwice(bytes: seq<Byte>, first: seq<Byte>, second: seq<Byte>)
    requires Embed(bytes, first).Ok?
    ensures Embed(Embed(bytes, first).value, second) == Embed(bytes, second)
  {
    hide WalkFrom, RenderAll, Strip, Insert, IsXmp, HasIend, NoXmp, Extract, ReadXmp;
    EmbedRoundTrip(bytes, first);
    var kept := Strip(WalkFrom(bytes[8..]).chunks);
    ReadNewXmp(first);
    InsertMeaning(kept, NewXmp(first));
  }

  // ----- where the record stands, and what its chunk holds

  /** The checksum is that of the kind and the data together (section 5.3 of PNG). */
  predicate Intact(c: Chunk) {
    c.checksum == Checksum(c.kind + c.data)
  }

  predicate AllIntact(chunks: seq<Chunk>) {
    forall c :: c in chunks ==> Intact(c)
  }

  lemma {:induction false} StripKeeps(chunks: seq<Chunk>, c: Chunk)
    ensures c in Strip(chunks) <==> c in chunks && !IsXmp(c)
  {
    hide IsXmp;
    if chunks != [] {
      StripKeeps(chunks[1..], c);
      assert chunks == [chunks[0]] + chunks[1..];
    }
  }

  lemma NoIendYet()
    ensures !HasIend([])
  {
  }

  lemma FrontAndBack(c: Chunk, rest: seq<Chunk>, n: nat)
    requires n <= |rest|
    ensures ([c] + rest)[..n + 1] == [c] + rest[..n] && ([c] + rest)[n + 1..] == rest[n..]
  {
  }

  lemma {:induction false} InsertPlace(chunks: seq<Chunk>, extra: Chunk) returns (at: nat)
    requires HasIend(chunks)
    ensures at < |chunks| && chunks[at].kind == IEND && !HasIend(chunks[..at])
    ensures Insert(chunks, extra) == chunks[..at] + [extra] + chunks[at..]
  {
    assert chunks != [];
    hide HasIend;
    var c, rest := chunks[0], chunks[1..];
    assert chunks == [c] + rest;
    if c.kind == IEND {
      at := 0;
      NoIendYet();
    } else {
      HasIendAfter(c, rest);
      var place := InsertPlace(rest, extra);
      at := place + 1;
      HasIendAfter(c, rest[..place]);
      FrontAndBack(c, rest, place);
      assert [c] + (rest[..place] + [extra] + rest[place..]) == chunks[..at] + [extra] + chunks[at..];
    }
  }

  /**
   * The new chunk stands right before the first IEND of the others, with the keyword, no compression, no language and
   * no translated keyword in front of the packet; and an image whose checksums are right keeps them so.
   */
  lemma EmbedPlace(bytes: seq<Byte>, xmp: seq<Byte>) returns (kept: seq<Chunk>, at: nat)
    requires Embed(bytes, xmp).Ok?
    ensures var source := WalkFrom(bytes[8..]).chunks;
      var record := RawChunk(ITXT, KEYWORD + [0, 0, 0, 0, 0] + xmp, Checksum(ITXT + KEYWORD + [0, 0, 0, 0, 0] + xmp));
      var chunks := WalkFrom(Embed(bytes, xmp).value[8..]).chunks;
      && (forall c :: c in kept <==> c in source && !IsXmp(c))
      && at < |kept| && kept[at].kind == IEND && !HasIend(kept[..at])
      && chunks == kept[..at] + [record] + kept[at..]
      && (AllIntact(source) ==> AllIntact(chunks))
  {
    hide WalkFrom, Insert, Strip, HasIend, Extract, RenderAll;
    EmbedRoundTrip(bytes, xmp);
    var source := WalkFrom(bytes[8..]).chunks;
    kept := Strip(source);
    at := InsertPlace(kept, NewXmp(xmp));
    assert ITXT + KEYWORD + [0, 0, 0, 0, 0] + xmp == ITXT + XmpData(xmp);
    forall c ensures c in kept <==> c in source && !IsXmp(c) {
      StripKeeps(source, c);
    }
    assert Intact(NewXmp(xmp));
  }
}
