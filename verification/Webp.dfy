/** Rewriting the XMP chunk of a WebP container. */
module Webp {
  import opened Wrappers
  import opened Bytes

  datatype Error =
    | NotWebp | SizeMismatch | TooManyChunks | HeaderTruncated | DataTruncated | PaddingTruncated
    | MalformedVp8x | CanvasTooLarge | ChunkTooLarge | ContainerTooLarge | XmpSizeRejected

  const MAX_CHUNKS := 4096

  const RIFF: seq<Byte> := [0x52, 0x49, 0x46, 0x46]
  const WEBP: seq<Byte> := [0x57, 0x45, 0x42, 0x50]
  const VP8X: seq<Byte> := [0x56, 0x50, 0x38, 0x58]
  const VP8L: seq<Byte> := [0x56, 0x50, 0x38, 0x4C]
  const ALPH: seq<Byte> := [0x41, 0x4C, 0x50, 0x48]
  const ANIM: seq<Byte> := [0x41, 0x4E, 0x49, 0x4D]
  const ANMF: seq<Byte> := [0x41, 0x4E, 0x4D, 0x46]
  const EXIF: seq<Byte> := [0x45, 0x58, 0x49, 0x46]
  const ICCP: seq<Byte> := [0x49, 0x43, 0x43, 0x50]
  const XMP: seq<Byte> := [0x58, 0x4D, 0x50, 0x20]

  datatype RawChunk = RawChunk(kind: seq<Byte>, data: seq<Byte>)

  /** What the 8-byte chunk header can describe. */
  type Chunk = c: RawChunk | |c.kind| == 4 && |c.data| < U32_LIMIT witness RawChunk([0, 0, 0, 0], [])

  // ----- the container grammar

  function RenderChunk(c: Chunk): (r: seq<Byte>)
  {
    c.kind + LittleEndian32(|c.data|) + c.data + if |c.data| % 2 == 1 then [0] else []
  }

  function RenderAll(chunks: seq<Chunk>): (r: seq<Byte>)
  {
    if chunks == [] then [] else RenderChunk(chunks[0]) + RenderAll(chunks[1..])
  }

  /** `body` is the chunks one after the other; a padding byte may hold anything. */
  ghost predicate Encodes(body: seq<Byte>, chunks: seq<Chunk>)
    decreases |chunks|
  {
    if chunks == [] then body == []
    else
      var c := chunks[0];
      var end := 8 + |c.data| + |c.data| % 2;
      && end <= |body|
      && body[..8 + |c.data|] == c.kind + LittleEndian32(|c.data|) + c.data
      && Encodes(body[end..], chunks[1..])
  }

  /** A RIFF container whose size field is exact. */
  ghost predicate IsContainer(bytes: seq<Byte>, chunks: seq<Chunk>)
  {
    && 12 <= |bytes|
    && |bytes| - 8 < U32_LIMIT
    && bytes[..12] == RIFF + LittleEndian32(|bytes| - 8) + WEBP
    && Encodes(bytes[12..], chunks)
  }

  // ----- the reader

  /** Reads one chunk; the number is what it occupies, padding included. */
  function ReadChunk(rest: seq<Byte>): (r: Result<(Chunk, nat), Error>)
    ensures r.Ok? ==> 8 <= r.value.1 <= |rest|
  {
    if |rest| < 8 then Err(HeaderTruncated)
    else
      var size := FromLittleEndian32(rest[4..8]);
      if |rest| < 8 + size then Err(DataTruncated)
      else if |rest| < 8 + size + size % 2 then Err(PaddingTruncated)
      else Ok((RawChunk(rest[..4], rest[8..8 + size]), 8 + size + size % 2))
  }

  /** The chunks that can be read, and what stops the walk before the end of the input. */
  datatype Walk = Walk(chunks: seq<Chunk>, fault: Option<Error>)

  function WalkFrom(rest: seq<Byte>, count: nat): (r: Walk)
    decreases |rest|
  {
    if rest == [] then Walk([], None)
    else if count + 1 > MAX_CHUNKS then Walk([], Some(TooManyChunks))
    else match ReadChunk(rest)
      case Err(e) => Walk([], Some(e))
      case Ok((chunk, used)) =>
        var tail := WalkFrom(rest[used..], count + 1);
        Walk([chunk] + tail.chunks, tail.fault)
  }

  function CheckHeader(bytes: seq<Byte>): (r: Option<Error>)
    ensures r.None? ==> 12 <= |bytes|
  {
    if |bytes| < 12 || bytes[..4] != RIFF || bytes[8..12] != WEBP then Some(NotWebp)
    else if FromLittleEndian32(bytes[4..8]) + 8 != |bytes| then Some(SizeMismatch)
    else None
  }

  function WalkContainer(bytes: seq<Byte>): (r: Walk)
  {
    match CheckHeader(bytes)
    case Some(e) => Walk([], Some(e))
    case None => WalkFrom(bytes[12..], 0)
  }

  function Parse(bytes: seq<Byte>): (r: Result<seq<Chunk>, Error>)
  {
    var walk := WalkContainer(bytes);
    if walk.fault.Some? then Err(walk.fault.value) else Ok(walk.chunks)
  }

  /** Feeds the chunks to a visitor until it fails, asks to stop, or the walk ends. */
  function Drive<S>(walk: Walk, state: S, visit: (S, Chunk) -> Result<(S, bool), Error>): Result<S, Error>
    decreases |walk.chunks|
  {
    if walk.chunks == [] then
      if walk.fault.Some? then Err(walk.fault.value) else Ok(state)
    else
      var (next, go) :- visit(state, walk.chunks[0]);
      if go then Drive(Walk(walk.chunks[1..], walk.fault), next, visit) else Ok(next)
  }

  /** The chunk loop as a recursion over what is left of the input. */
  function Visit<S>(rest: seq<Byte>, count: nat, state: S, visit: (S, Chunk) -> Result<(S, bool),
    Error>): Result<S, Error>
    decreases |rest|
  {
    if rest == [] then Ok(state)
    else if count + 1 > MAX_CHUNKS then Err(TooManyChunks)
    else
      var (chunk, used) :- ReadChunk(rest);
      var (next, go) :- visit(state, chunk);
      if go then Visit(rest[used..], count + 1, next, visit) else Ok(next)
  }

  lemma {:induction false} VisitIsDrive<S>(
      rest: seq<Byte>, count: nat, state: S, visit: (S, Chunk) -> Result<(S, bool), Error>)
    ensures Visit(rest, count, state, visit) == Drive(WalkFrom(rest, count), state, visit)
    decreases |rest|
  {
    if rest != [] && count < MAX_CHUNKS && ReadChunk(rest).Ok? {
      var (chunk, used) := ReadChunk(rest).value;
      var walk, tail := WalkFrom(rest, count), WalkFrom(rest[used..], count + 1);
      assert walk.chunks == [chunk] + tail.chunks && walk.chunks[1..] == tail.chunks;
      var visited := visit(state, chunk);
      if visited.Ok? {
        VisitIsDrive(rest[used..], count + 1, visited.value.0, visit);
      }
    }
  }

  /** The chunk loop. What a visiting closure captures is the state `S` threaded through it. */
  method VisitChunks<S>(bytes: seq<Byte>, init: S, visit: (S, Chunk) -> Result<(S, bool), Error>)
    returns (r: Result<S, Error>)
    ensures r == Drive(WalkContainer(bytes), init, visit)
  {
    var fault := CheckHeader(bytes);
    if fault.Some? {
      return Err(fault.value);
    }
    VisitIsDrive(bytes[12..], 0, init, visit);
    var position, count, state := 12, 0, init;
    while position < |bytes|
      invariant 12 <= position <= |bytes|
      invariant Visit(bytes[12..], 0, init, visit) == Visit(bytes[position..], count, state, visit)
    {
      count := count + 1;
      if count > MAX_CHUNKS {
        return Err(TooManyChunks);
      }
      var chunk := ReadChunk(bytes[position..]);
      if chunk.Err? {
        return Err(chunk.error);
      }
      var (found, used) := chunk.value;
      assert bytes[position..][used..] == bytes[position + used..];
      var visited := visit(state, found);
      if visited.Err? {
        return Err(visited.error);
      }
      state := visited.value.0;
      if !visited.value.1 {
        return Ok(state);
      }
      position := position + used;
    }
    return Ok(state);
  }

  // ----- the rewriter

  function HasVp8lAlpha(data: seq<Byte>): bool {
    |data| >= 5 && data[0] == 0x2f && FromLittleEndian32(data[1..5]) / 0x1000_0000 % 2 == 1
  }

  function AddFlag(flags: Byte, c: Chunk): Byte {
    if c.kind == ICCP then SetFlag(flags, Icc)
    else if c.kind == ALPH then SetFlag(flags, Alpha)
    else if c.kind == EXIF then SetFlag(flags, Exif)
    else if c.kind == ANIM || c.kind == ANMF then SetFlag(flags, Animation)
    else if c.kind == VP8L && HasVp8lAlpha(c.data) then SetFlag(flags, Alpha)
    else flags
  }

  function AddFlags(flags: Byte, chunks: seq<Chunk>): Byte
    decreases |chunks|
  {
    if chunks == [] then flags else AddFlags(AddFlag(flags, chunks[0]), chunks[1..])
  }

  function HasVp8x(chunks: seq<Chunk>): bool {
    exists c :: c in chunks && c.kind == VP8X
  }

  function Pred(n: nat): nat {
    if n == 0 then 0 else n - 1
  }

  /** The extended header of a container that lacks one. */
  function NewVp8x(flags: Byte, width: nat, height: nat): (r: Chunk)
    requires Pred(width) < U24_LIMIT && Pred(height) < U24_LIMIT
  {
    RawChunk(VP8X, [flags, 0, 0, 0] + LittleEndian24(Pred(width)) + LittleEndian24(Pred(height)))
  }

  /** What becomes of one source chunk: dropped, flagged or copied. */
  function Rewritten(c: Chunk): seq<Chunk> {
    if c.kind == XMP then []
    else if c.kind == VP8X && |c.data| == 10 then [c.(data := c.data[0 := SetFlag(c.data[0], Xmp)])]
    else [c]
  }

  function RewriteAll(chunks: seq<Chunk>): seq<Chunk> {
    if chunks == [] then [] else Rewritten(chunks[0]) + RewriteAll(chunks[1..])
  }

  predicate Vp8xSound(chunks: seq<Chunk>) {
    forall c :: c in chunks && c.kind == VP8X ==> |c.data| == 10
  }

  function Container(body: seq<Byte>): (r: seq<Byte>)
    requires 4 + |body| < U32_LIMIT
  {
    RIFF + LittleEndian32(4 + |body|) + WEBP + body
  }

  /** The chunks of the rewritten container, from those of the source. */
  function Rewrite(chunks: seq<Chunk>, xmp: seq<Byte>, width: nat, height: nat): (r: Result<seq<Chunk>, Error>)
  {
    if !HasVp8x(chunks) && (Pred(width) >= U24_LIMIT || Pred(height) >= U24_LIMIT) then Err(CanvasTooLarge)
    else if !Vp8xSound(chunks) then Err(MalformedVp8x)
    else if |xmp| >= U32_LIMIT then Err(ChunkTooLarge)
    else
      var head := if HasVp8x(chunks) then [] else [NewVp8x(AddFlags(SetFlag(0, Xmp), chunks), width, height)];
      Ok(head + RewriteAll(chunks) + [RawChunk(XMP, xmp)])
  }

  function Embed(bytes: seq<Byte>, xmp: seq<Byte>, width: nat, height: nat): (r: Result<seq<Byte>, Error>) {
    var source :- Parse(bytes);
    var target :- Rewrite(source, xmp, width, height);
    var body := RenderAll(target);
    if 4 + |body| >= U32_LIMIT then Err(ContainerTooLarge) else Ok(Container(body))
  }

  function FirstXmp(chunks: seq<Chunk>): Option<seq<Byte>> {
    if chunks == [] then None
    else if chunks[0].kind == XMP then Some(chunks[0].data)
    else FirstXmp(chunks[1..])
  }

  predicate Bounded(xmp: seq<Byte>) {
    0 < |xmp| <= MAX_XMP_BYTES
  }

  /** Extraction stops at the first XMP chunk, so what follows it need not be readable. */
  function Extract(bytes: seq<Byte>): Result<Option<seq<Byte>>, Error> {
    var walk := WalkContainer(bytes);
    match FirstXmp(walk.chunks)
    case Some(xmp) => if Bounded(xmp) then Ok(Some(xmp)) else Err(XmpSizeRejected)
    case None => if walk.fault.Some? then Err(walk.fault.value) else Ok(None)
  }

  // ----- the loops the source runs

  function Survey(state: (bool, Byte), c: Chunk): Result<((bool, Byte), bool), Error> {
    Ok(((state.0 || c.kind == VP8X, AddFlag(state.1, c)), true))
  }

  function Copy(output: seq<Byte>, c: Chunk): Result<(seq<Byte>, bool), Error> {
    if c.kind == XMP then Ok((output, true))
    else if c.kind == VP8X then
      if |c.data| != 10 then Err(MalformedVp8x)
      else Ok((output + RenderChunk(c.(data := c.data[0 := SetFlag(c.data[0], Xmp)])), true))
    else Ok((output + RenderChunk(c), true))
  }

  function Find(found: Option<seq<Byte>>, c: Chunk): Result<(Option<seq<Byte>>, bool), Error> {
    if c.kind != XMP then Ok((found, true))
    else if Bounded(c.data) then Ok((Some(c.data), false))
    else Err(XmpSizeRejected)
  }

  lemma {:induction false} SurveyMeaning(walk: Walk, state: (bool, Byte))
    ensures Drive(walk, state, Survey) ==
      if walk.fault.Some? then Err(walk.fault.value)
      else Ok((state.0 || HasVp8x(walk.chunks), AddFlags(state.1, walk.chunks)))
    decreases |walk.chunks|
  {
    if walk.chunks != [] {
      var c, rest := walk.chunks[0], walk.chunks[1..];
      SurveyMeaning(Walk(rest, walk.fault), (state.0 || c.kind == VP8X, AddFlag(state.1, c)));
      assert HasVp8x(walk.chunks) <==> c.kind == VP8X || HasVp8x(rest);
    }
  }

  lemma {:induction false} CopyMeaning(walk: Walk, output: seq<Byte>)
    ensures Drive(walk, output, Copy) ==
      if !Vp8xSound(walk.chunks) then Err(MalformedVp8x)
      else if walk.fault.Some? then Err(walk.fault.value)
      else Ok(output + RenderAll(RewriteAll(walk.chunks)))
    decreases |walk.chunks|
  {
    if walk.chunks == [] {
      assert output + [] == output;
    } else {
      var c, rest := walk.chunks[0], walk.chunks[1..];
      assert Vp8xSound(walk.chunks) <==> (c.kind == VP8X ==> |c.data| == 10) && Vp8xSound(rest);
      var copied := Copy(output, c);
      if copied.Ok? {
        var next := copied.value.0;
        CopyMeaning(Walk(rest, walk.fault), next);
        RenderFew(output);
        RenderMore(output, Rewritten(c), RewriteAll(rest));
      }
    }
  }

  lemma {:induction false} FindMeaning(walk: Walk)
    ensures Drive(walk, None, Find) ==
      match FirstXmp(walk.chunks)
      case Some(xmp) => if Bounded(xmp) then Ok(Some(xmp)) else Err(XmpSizeRejected)
      case None => if walk.fault.Some? then Err(walk.fault.value) else Ok(None)
    decreases |walk.chunks|
  {
    if walk.chunks != [] {
      FindMeaning(Walk(walk.chunks[1..], walk.fault));
    }
  }

  /** Writing the size over the blank field of a finished container. */
  lemma PatchSize(output: seq<Byte>, body: seq<Byte>)
    requires output == RIFF + [0, 0, 0, 0] + WEBP + body && 4 + |body| < U32_LIMIT
    ensures output[..4] + LittleEndian32(|output| - 8) + output[8..] == Container(body)
  {
  }

  lemma RenderFew(output: seq<Byte>)
    ensures output + RenderAll([]) == output
    ensures forall c: Chunk :: output + RenderAll([c]) == output + RenderChunk(c)
  {
  }

  /** Appending chunks in two goes. */
  lemma RenderMore(output: seq<Byte>, left: seq<Chunk>, right: seq<Chunk>)
    ensures output + RenderAll(left) + RenderAll(right) == output + RenderAll(left + right)
  {
    RenderAllConcat(left, right);
  }

  method EmbedWebp(bytes: seq<Byte>, xmp: seq<Byte>, width: nat, height: nat) returns (r: Result<seq<Byte>, Error>)
    ensures r == Embed(bytes, xmp, width, height)
  {
    hide WalkContainer, RenderAll, RenderChunk, RewriteAll, Container;
    ghost var walk := WalkContainer(bytes);
    SurveyMeaning(walk, (false, SetFlag(0, Xmp)));
    var survey := VisitChunks(bytes, (false, SetFlag(0, Xmp)), Survey);
    if survey.Err? {
      return Err(survey.error);
    }
    var (hasVp8x, flags) := survey.value;
    var output := RIFF + [0, 0, 0, 0] + WEBP;
    ghost var blank, head: seq<Chunk> := output, [];
    RenderFew(blank);
    if !hasVp8x {
      if Pred(width) >= U24_LIMIT || Pred(height) >= U24_LIMIT {
        return Err(CanvasTooLarge);
      }
      head := [NewVp8x(flags, width, height)];
      output := output + RenderChunk(NewVp8x(flags, width, height));
    }
    CopyMeaning(walk, output);
    output :- VisitChunks(bytes, output, Copy);
    if |xmp| >= U32_LIMIT {
      return Err(ChunkTooLarge);
    }
    RenderFew(output);
    output := output + RenderChunk(RawChunk(XMP, xmp));
    ghost var target := head + RewriteAll(walk.chunks) + [RawChunk(XMP, xmp)];
    RenderMore(blank, head, RewriteAll(walk.chunks));
    RenderMore(blank, head + RewriteAll(walk.chunks), [RawChunk(XMP, xmp)]);
    assert Rewrite(walk.chunks, xmp, width, height) == Ok(target);
    if |output| - 8 >= U32_LIMIT {
      return Err(ContainerTooLarge);
    }
    PatchSize(output, RenderAll(target));
    output := output[..4] + LittleEndian32(|output| - 8) + output[8..];
    return Ok(output);
  }

  method ExtractWebp(bytes: seq<Byte>) returns (r: Result<Option<seq<Byte>>, Error>)
    ensures r == Extract(bytes)
  {
    FindMeaning(WalkContainer(bytes));
    r := VisitChunks(bytes, None, Find);
  }

  // ----- what the reader accepts

  lemma {:induction false} RenderAllConcat(left: seq<Chunk>, right: seq<Chunk>)
    ensures RenderAll(left + right) == RenderAll(left) + RenderAll(right)
  {
    if left == [] {
      assert left + right == right;
    } else {
      assert (left + right)[1..] == left[1..] + right;
      RenderAllConcat(left[1..], right);
    }
  }

  lemma ReadRendered(c: Chunk, rest: seq<Byte>)
    ensures ReadChunk(RenderChunk(c) + rest) == Ok((c, |RenderChunk(c)|))
  {
    var bytes := RenderChunk(c) + rest;
    LittleEndian32RoundTrip(|c.data|);
    assert bytes[..4] == c.kind && bytes[4..8] == LittleEndian32(|c.data|);
    assert bytes[8..8 + |c.data|] == c.data;
  }

  lemma {:induction false} RenderedIsEncoded(chunks: seq<Chunk>)
    ensures Encodes(RenderAll(chunks), chunks)
  {
    if chunks != [] {
      RenderedIsEncoded(chunks[1..]);
      var c, body := chunks[0], RenderAll(chunks);
      assert body[8 + |c.data| + |c.data| % 2..] == RenderAll(chunks[1..]);
      assert body[..8 + |c.data|] == c.kind + LittleEndian32(|c.data|) + c.data;
    }
  }

  lemma ReadIff(rest: seq<Byte>, c: Chunk)
    ensures ReadChunk(rest).Ok? && ReadChunk(rest).value.0 == c <==>
      && 8 + |c.data| + |c.data| % 2 <= |rest|
      && rest[..8 + |c.data|] == c.kind + LittleEndian32(|c.data|) + c.data
    ensures ReadChunk(rest).Ok? && ReadChunk(rest).value.0 == c ==>
      ReadChunk(rest).value.1 == 8 + |c.data| + |c.data| % 2
  {
    LittleEndian32RoundTrip(|c.data|);
    var whole := c.kind + LittleEndian32(|c.data|) + c.data;
    if ReadChunk(rest).Ok? && ReadChunk(rest).value.0 == c {
      LittleEndian32Inverse(rest[4..8]);
      assert rest[..8 + |c.data|] == rest[..4] + rest[4..8] + rest[8..8 + |c.data|];
    }
    if 8 + |c.data| + |c.data| % 2 <= |rest| && rest[..8 + |c.data|] == whole {
      assert rest[..4] == whole[..4] == c.kind;
      assert rest[4..8] == whole[4..8] == LittleEndian32(|c.data|);
      assert rest[8..8 + |c.data|] == whole[8..] == c.data;
    }
  }

  /** The reader accepts exactly the concatenations of at most MAX_CHUNKS chunks. */
  lemma {:induction false} WalkIff(rest: seq<Byte>, chunks: seq<Chunk>, count: nat)
    requires count <= MAX_CHUNKS
    ensures WalkFrom(rest, count) == Walk(chunks, None) <==> Encodes(rest, chunks) && count + |chunks| <= MAX_CHUNKS
    decreases |chunks|
  {
    hide ReadChunk;
    if chunks != [] && rest != [] && count < MAX_CHUNKS {
      ReadIff(rest, chunks[0]);
      if ReadChunk(rest).Ok? {
        var (c, used) := ReadChunk(rest).value;
        WalkIff(rest[used..], chunks[1..], count + 1);
        var tail := WalkFrom(rest[used..], count + 1);
        assert chunks == [chunks[0]] + chunks[1..];
        assert ([c] + tail.chunks)[1..] == tail.chunks;
      }
    }
  }

  lemma ParseIff(bytes: seq<Byte>, chunks: seq<Chunk>)
    ensures Parse(bytes) == Ok(chunks) <==> IsContainer(bytes, chunks) && |chunks| <= MAX_CHUNKS
  {
    hide CheckHeader, WalkFrom, Encodes;
    HeaderIff(bytes);
    if CheckHeader(bytes) == None {
      WalkIff(bytes[12..], chunks, 0);
      var walk := WalkContainer(bytes);
      assert Parse(bytes) == Ok(chunks) <==> walk == Walk(chunks, None);
    }
  }

  /** The header is accepted exactly when it is the one of a container of this size. */
  lemma HeaderIff(bytes: seq<Byte>)
    ensures CheckHeader(bytes) == None <==>
      12 <= |bytes| && |bytes| - 8 < U32_LIMIT && bytes[..12] == RIFF + LittleEndian32(|bytes| - 8) + WEBP
  {
    hide LittleEndian32, FromLittleEndian32;
    if 12 <= |bytes| {
      var header := bytes[..12];
      assert header == bytes[..4] + bytes[4..8] + bytes[8..12];
      assert header[..4] == bytes[..4] && header[4..8] == bytes[4..8] && header[8..] == bytes[8..12];
      LittleEndian32Inverse(bytes[4..8]);
      if |bytes| - 8 < U32_LIMIT {
        LittleEndian32RoundTrip(|bytes| - 8);
        var expected := RIFF + LittleEndian32(|bytes| - 8) + WEBP;
        assert expected[..4] == RIFF && expected[4..8] == LittleEndian32(|bytes| - 8) && expected[8..] == WEBP;
      }
    }
  }

  // ----- what the rewriter guarantees

  function Count(chunks: seq<Chunk>, kind: seq<Byte>): nat {
    if chunks == [] then 0 else (if chunks[0].kind == kind then 1 else 0) + Count(chunks[1..], kind)
  }

  /** The chunks the rewriter must not touch. */
  function Payload(chunks: seq<Chunk>): seq<Chunk> {
    if chunks == [] then []
    else (if chunks[0].kind in {XMP, VP8X} then [] else [chunks[0]]) + Payload(chunks[1..])
  }

  lemma {:induction false} CountConcat(left: seq<Chunk>, right: seq<Chunk>, kind: seq<Byte>)
    ensures Count(left + right, kind) == Count(left, kind) + Count(right, kind)
  {
    if left == [] {
      assert left + right == right;
    } else {
      assert (left + right)[1..] == left[1..] + right;
      CountConcat(left[1..], right, kind);
    }
  }

  lemma {:induction false} PayloadConcat(left: seq<Chunk>, right: seq<Chunk>)
    ensures Payload(left + right) == Payload(left) + Payload(right)
  {
    if left == [] {
      assert left + right == right;
    } else {
      assert (left + right)[1..] == left[1..] + right;
      PayloadConcat(left[1..], right);
    }
  }

  /** Every extended header announces the XMP chunk. */
  predicate Flagged(chunks: seq<Chunk>) {
    forall c :: c in chunks && c.kind == VP8X ==> |c.data| == 10 && Bit(c.data[0], 0x04)
  }

  /** What became of a chunk that is not XMP: the same, but for the announcing bit of an extended header. */
  ghost predicate KeptAs(c: Chunk, r: Chunk) {
    if c.kind != VP8X then r == c
    else
      && r.kind == VP8X && |c.data| == |r.data| == 10 && r.data[1..] == c.data[1..]
      && forall bit :: IsBit(bit) ==> (Bit(r.data[0], bit) <==> Bit(c.data[0], bit) || bit == 0x04)
  }

  function NotXmp(chunks: seq<Chunk>): seq<Chunk> {
    if chunks == [] then []
    else (if chunks[0].kind == XMP then [] else [chunks[0]]) + NotXmp(chunks[1..])
  }

  /** One chunk after the other kept. */
  ghost predicate AllKept(chunks: seq<Chunk>, kept: seq<Chunk>) {
    |chunks| == |kept| && forall i :: 0 <= i < |chunks| ==> KeptAs(chunks[i], kept[i])
  }

  lemma RewrittenMeaning(c: Chunk)
    requires c.kind == VP8X ==> |c.data| == 10
    ensures c.kind == XMP ==> Rewritten(c) == []
    ensures c.kind != XMP ==>
      var r := Rewritten(c);
      |r| == 1 && KeptAs(c, r[0]) && Rewritten(r[0]) == r && Flagged(r)
  {
    if c.kind == VP8X {
      var r := Rewritten(c)[0];
      forall bit | IsBit(bit) ensures Bit(r.data[0], bit) <==> Bit(c.data[0], bit) || bit == 0x04 {
        SetFlagMeaning(c.data[0], Xmp, bit);
      }
      SetFlagMeaning(r.data[0], Xmp, 0x04);
      assert r.data[0 := r.data[0]] == r.data;
    }
  }

  lemma {:induction false} RewriteAllMeaning(chunks: seq<Chunk>)
    requires Vp8xSound(chunks)
    ensures var r := RewriteAll(chunks);
      && Payload(r) == Payload(chunks)
      && Count(r, XMP) == 0
      && |r| == |chunks| - Count(chunks, XMP)
      && HasVp8x(r) == HasVp8x(chunks)
      && Flagged(r)
      && AllKept(NotXmp(chunks), r)
      && RewriteAll(r) == r
  {
    if chunks != [] {
      var c, rest := chunks[0], chunks[1..];
      assert chunks == [c] + rest;
      RewriteAllMeaning(rest);
      RewrittenMeaning(c);
      var tail := RewriteAll(rest);
      if c.kind == XMP {
        assert RewriteAll(chunks) == tail;
      } else {
        var kept := Rewritten(c)[0];
        var all := [kept] + tail;
        assert NotXmp(chunks) == [c] + NotXmp(rest);
        assert all[1..] == tail && RewriteAll(chunks) == all;
        assert HasVp8x(all) <==> kept.kind == VP8X || HasVp8x(tail);
      }
    }
  }

  /** The chunk asks for this bit of the extended header. */
  predicate Asks(c: Chunk, bit: nat) {
    || (bit == 0x20 && c.kind == ICCP)
    || (bit == 0x10 && c.kind == ALPH)
    || (bit == 0x10 && c.kind == VP8L && |c.data| >= 5 && c.data[0] == 0x2f && Bit(c.data[4], 0x10))
    || (bit == 0x08 && c.kind == EXIF)
    || (bit == 0x02 && c.kind in {ANIM, ANMF})
  }

  /** The alpha bit of a lossless image is the 28th of the word behind its signature. */
  lemma Vp8lAlphaIff(data: seq<Byte>)
    requires |data| >= 5
    ensures HasVp8lAlpha(data) <==> data[0] == 0x2f && Bit(data[4], 0x10)
  {
    var s := data[1..5];
    var high: int := s[3];
    FromEndianValue(s);
    assert s == [s[0], s[1], s[2], s[3]] && s[1..] == [s[1], s[2], s[3]];
    ValueOf3(s[1], s[2], s[3]);
    assert FromLittleEndian32(s) / 0x1000_0000 == high / 0x10;
  }

  lemma AddFlagMeaning(flags: Byte, c: Chunk, bit: nat)
    requires IsBit(bit)
    ensures Bit(AddFlag(flags, c), bit) <==> Bit(flags, bit) || Asks(c, bit)
  {
    hide SetFlag, HasVp8lAlpha, Bit;
    SetFlagMeaning(flags, Icc, bit);
    SetFlagMeaning(flags, Alpha, bit);
    SetFlagMeaning(flags, Exif, bit);
    SetFlagMeaning(flags, Animation, bit);
    if |c.data| >= 5 {
      Vp8lAlphaIff(c.data);
    } else {
      assert !HasVp8lAlpha(c.data) by {
        NoVp8lAlpha(c.data);
      }
    }
  }

  lemma NoVp8lAlpha(data: seq<Byte>)
    requires |data| < 5
    ensures !HasVp8lAlpha(data)
  {
  }

  lemma {:induction false} AddFlagsMeaning(flags: Byte, chunks: seq<Chunk>, bit: nat)
    requires IsBit(bit)
    ensures Bit(AddFlags(flags, chunks), bit) <==> Bit(flags, bit) || exists c :: c in chunks && Asks(c, bit)
    decreases |chunks|
  {
    hide Bit, Asks, AddFlag;
    if chunks != [] {
      AddFlagMeaning(flags, chunks[0], bit);
      AddFlagsMeaning(AddFlag(flags, chunks[0]), chunks[1..], bit);
      assert forall c :: c in chunks <==> c == chunks[0] || c in chunks[1..];
    }
  }

  lemma RenderedTail(c: Chunk, rest: seq<Chunk>, count: nat)
    requires count < MAX_CHUNKS
    ensures var walk, tail := WalkFrom(RenderAll([c] + rest), count), WalkFrom(RenderAll(rest), count + 1);
      walk == Walk([c] + tail.chunks, tail.fault)
  {
    var body := RenderAll([c] + rest);
    assert ([c] + rest)[1..] == rest;
    ReadRendered(c, RenderAll(rest));
    assert body[|RenderChunk(c)|..] == RenderAll(rest);
  }

  lemma WalkStops(chunks: seq<Chunk>, count: nat)
    requires count <= MAX_CHUNKS && (chunks == [] || count == MAX_CHUNKS)
    ensures WalkFrom(RenderAll(chunks), count) ==
      if chunks == [] then Walk([], None) else Walk([], Some(TooManyChunks))
  {
    hide ReadChunk;
    if chunks != [] {
      assert |RenderAll(chunks)| >= |RenderChunk(chunks[0])| >= 8;
    }
  }

  lemma TakeFirst(c: Chunk, rest: seq<Chunk>, n: nat)
    requires n <= |rest|
    ensures ([c] + rest)[..n + 1] == [c] + rest[..n]
  {
  }

  lemma {:induction false} WalkRendered(chunks: seq<Chunk>, count: nat)
    requires count <= MAX_CHUNKS
    ensures WalkFrom(RenderAll(chunks), count) ==
      if count + |chunks| <= MAX_CHUNKS then Walk(chunks, None)
      else Walk(chunks[..MAX_CHUNKS - count], Some(TooManyChunks))
    decreases |chunks|
  {
    hide RenderAll, WalkFrom, ReadChunk, RenderChunk;
    if chunks == [] || count == MAX_CHUNKS {
      WalkStops(chunks, count);
    } else {
      var c, rest := chunks[0], chunks[1..];
      assert chunks == [c] + rest;
      RenderedTail(c, rest, count);
      WalkRendered(rest, count + 1);
      if count + |chunks| > MAX_CHUNKS {
        TakeFirst(c, rest, MAX_CHUNKS - count - 1);
      }
    }
  }

  lemma ContainerHeader(body: seq<Byte>)
    requires 4 + |body| < U32_LIMIT
    ensures CheckHeader(Container(body)) == None && Container(body)[12..] == body
  {
    var bytes, size := Container(body), LittleEndian32(4 + |body|);
    LittleEndian32RoundTrip(4 + |body|);
    assert bytes[..4] == RIFF && bytes[4..8] == size && bytes[8..12] == WEBP;
  }

  /** The extended header the rewriter puts in front, if any. */
  function NewHead(source: seq<Chunk>, width: nat, height: nat): (r: seq<Chunk>)
    requires !HasVp8x(source) ==> Pred(width) < U24_LIMIT && Pred(height) < U24_LIMIT
  {
    if HasVp8x(source) then [] else [NewVp8x(AddFlags(SetFlag(0, Xmp), source), width, height)]
  }

  /** The ten bytes of an extended header for `source`: its bits, three blanks, and the canvas less one each way. */
  ghost predicate Describes(data: seq<Byte>, source: seq<Chunk>, width: nat, height: nat) {
    && |data| == 10 && data[1] == data[2] == data[3] == 0
    && (forall bit :: IsBit(bit) ==> (Bit(data[0], bit) <==> bit == 0x04 || exists c :: c in source && Asks(c, bit)))
    && Value(data[4..7]) == (if width == 0 then 0 else width - 1)
    && Value(data[7..10]) == (if height == 0 then 0 else height - 1)
  }

  lemma NewHeaderMeaning(source: seq<Chunk>, width: nat, height: nat)
    requires Pred(width) < U24_LIMIT && Pred(height) < U24_LIMIT
    ensures Describes(NewVp8x(AddFlags(SetFlag(0, Xmp), source), width, height).data, source, width, height)
  {
    hide AddFlags, Asks;
    var flags := AddFlags(SetFlag(0, Xmp), source);
    var data := NewVp8x(flags, width, height).data;
    assert data[4..7] == LittleEndian24(Pred(width)) && data[7..10] == LittleEndian24(Pred(height));
    LittleEndian24Value(Pred(width));
    LittleEndian24Value(Pred(height));
    forall bit | IsBit(bit) ensures Bit(flags, bit) <==> bit == 0x04 || exists c :: c in source && Asks(c, bit) {
      SetFlagMeaning(0, Xmp, bit);
      AddFlagsMeaning(SetFlag(0, Xmp), source, bit);
      ZeroBit(bit);
    }
  }

  lemma ZeroBit(bit: nat)
    requires IsBit(bit)
    ensures !Bit(0, bit)
  {
  }

  lemma NewHeadMeaning(source: seq<Chunk>, width: nat, height: nat)
    requires !HasVp8x(source) ==> Pred(width) < U24_LIMIT && Pred(height) < U24_LIMIT
    ensures var head := NewHead(source, width, height);
      && (!HasVp8x(source) ==> head[0].kind == VP8X && Describes(head[0].data, source, width, height))
      && Payload(head) == [] && Count(head, XMP) == 0 && Flagged(head) && RewriteAll(head) == head
      && (HasVp8x(head) <==> !HasVp8x(source))
      && |head| == if HasVp8x(source) then 0 else 1
  {
    var head := NewHead(source, width, height);
    if head != [] {
      var c := head[0];
      NewHeaderMeaning(source, width, height);
      assert c.kind == VP8X && |c.data| == 10 && c.data[0] == AddFlags(SetFlag(0, Xmp), source);
      assert head[1..] == [];
      RewrittenFlagged(c);
    }
  }

  lemma RewriteShape(source: seq<Chunk>, xmp: seq<Byte>, width: nat, height: nat)
    requires Rewrite(source, xmp, width, height).Ok?
    ensures !HasVp8x(source) ==> Pred(width) < U24_LIMIT && Pred(height) < U24_LIMIT
    ensures Vp8xSound(source) && |xmp| < U32_LIMIT
    ensures Rewrite(source, xmp, width, height).value
      == NewHead(source, width, height) + RewriteAll(source) + [RawChunk(XMP, xmp)]
  {
  }

  /** Which sources can be rewritten at all: the canvas fits 24 bits, and every extended header has its ten bytes. */
  lemma RewriteOkIff(source: seq<Chunk>, xmp: seq<Byte>, width: nat, height: nat)
    ensures Rewrite(source, xmp, width, height).Ok? <==>
      && ((exists c :: c in source && c.kind == VP8X) || (width <= 0x100_0000 && height <= 0x100_0000))
      && (forall c :: c in source && c.kind == VP8X ==> |c.data| == 10)
      && |xmp| < 0x1_0000_0000
  {
  }

  /**
   * The chunks of the result: a header describing the source if there was none, every chunk that is not XMP kept in its
   * place, one XMP chunk at the end.
   */
  lemma RewriteMeaning(source: seq<Chunk>, xmp: seq<Byte>, width: nat, height: nat)
    requires Rewrite(source, xmp, width, height).Ok?
    ensures var target := Rewrite(source, xmp, width, height).value;
      && target != [] && target[|target| - 1] == RawChunk(XMP, xmp)
      && Count(target[..|target| - 1], XMP) == 0
      && (if HasVp8x(source) then AllKept(NotXmp(source), target[..|target| - 1])
          else
            && |target| > 1 && AllKept(NotXmp(source), target[1..|target| - 1])
            && target[0].kind == VP8X && Describes(target[0].data, source, width, height))
      && Payload(target) == Payload(source)
      && HasVp8x(target) && Flagged(target)
      && |target| == |source| - Count(source, XMP) + 1 + (if HasVp8x(source) then 0 else 1)
      && FirstXmp(target) == Some(xmp)
  {
    hide *;
    RewriteShape(source, xmp, width, height);
    NewHeadMeaning(source, width, height);
    RewriteAllMeaning(source);
    var head, kept := NewHead(source, width, height), RewriteAll(source);
    CountConcat(head, kept, XMP);
    AppendXmp(head + kept, xmp);
    PayloadConcat(head, kept);
    UnionMeaning(head, kept, RawChunk(XMP, xmp));
    HeadAndKept(head, kept, RawChunk(XMP, xmp));
  }

  lemma HeadAndKept(head: seq<Chunk>, kept: seq<Chunk>, last: Chunk)
    ensures |head| == 0 ==> (head + kept + [last])[..|kept|] == kept
    ensures |head| == 1 ==>
      (head + kept + [last])[0] == head[0] && (head + kept + [last])[1..|kept| + 1] == kept
  {
  }

  lemma AppendXmp(chunks: seq<Chunk>, xmp: seq<Byte>)
    requires Count(chunks, XMP) == 0 && |xmp| < U32_LIMIT
    ensures var target := chunks + [RawChunk(XMP, xmp)];
      && target != [] && target[|target| - 1] == RawChunk(XMP, xmp) && target[..|target| - 1] == chunks
      && Payload(target) == Payload(chunks) && FirstXmp(target) == Some(xmp)
  {
    var last: seq<Chunk> := [RawChunk(XMP, xmp)];
    PayloadConcat(chunks, last);
    FirstXmpAtEnd(chunks, xmp);
    assert Payload(last) == [];
  }

  lemma UnionMeaning(head: seq<Chunk>, kept: seq<Chunk>, last: Chunk)
    requires Flagged(head) && Flagged(kept) && last.kind == XMP
    ensures Flagged(head + kept + [last]) && HasVp8x(head + kept + [last]) == (HasVp8x(head) || HasVp8x(kept))
  {
    assert forall c :: c in head + kept + [last] <==> c in head || c in kept || c == last;
  }

  lemma {:induction false} FirstXmpAtEnd(chunks: seq<Chunk>, xmp: seq<Byte>)
    requires Count(chunks, XMP) == 0 && |xmp| < U32_LIMIT
    ensures FirstXmp(chunks) == None && FirstXmp(chunks + [RawChunk(XMP, xmp)]) == Some(xmp)
  {
    if chunks != [] {
      assert (chunks + [RawChunk(XMP, xmp)])[1..] == chunks[1..] + [RawChunk(XMP, xmp)];
      FirstXmpAtEnd(chunks[1..], xmp);
    }
  }

  lemma ContainerReads(target: seq<Chunk>)
    requires 4 + |RenderAll(target)| < U32_LIMIT
    ensures var output := Container(RenderAll(target));
      && IsContainer(output, target)
      && WalkContainer(output) ==
        if |target| <= MAX_CHUNKS then Walk(target, None) else Walk(target[..MAX_CHUNKS], Some(TooManyChunks))
  {
    var body := RenderAll(target);
    hide RenderAll, CheckHeader;
    ContainerHeader(body);
    RenderedIsEncoded(target);
    WalkRendered(target, 0);
    var output := Container(body);
    assert output[..12] == RIFF + LittleEndian32(|output| - 8) + WEBP;
  }

  /** A walk cut short before the record does not find it. */
  lemma {:induction false} NoXmpBefore(chunks: seq<Chunk>, n: nat)
    requires n <= |chunks| && Count(chunks, XMP) == 0
    ensures FirstXmp(chunks[..n]) == None
  {
    if n > 0 {
      assert chunks[..n][1..] == chunks[1..][..n - 1];
      NoXmpBefore(chunks[1..], n - 1);
    }
  }

  /**
   * Round trip. The output is an exact container of the rewritten chunks, and the record comes back
   * exactly when those are few enough for the reader.
   */
  lemma EmbedRoundTrip(bytes: seq<Byte>, xmp: seq<Byte>, width: nat, height: nat)
    requires Embed(bytes, xmp, width, height).Ok?
    ensures var output := Embed(bytes, xmp, width, height).value;
      var source := Parse(bytes).value;
      var target := Rewrite(source, xmp, width, height).value;
      && IsContainer(output, target)
      && Parse(output) == (if |target| <= MAX_CHUNKS then Ok(target) else Err(TooManyChunks))
      && (Extract(output) == Ok(Some(xmp)) <==> |target| <= MAX_CHUNKS && Bounded(xmp))
      && (|target| > MAX_CHUNKS ==> Extract(output) == Err(TooManyChunks))
  {
    hide IsContainer, WalkContainer, Rewrite, Container;
    var source := Parse(bytes).value;
    var target := Rewrite(source, xmp, width, height).value;
    RewriteMeaning(source, xmp, width, height);
    ContainerReads(target);
    if |target| > MAX_CHUNKS {
      var before := target[..|target| - 1];
      NoXmpBefore(before, MAX_CHUNKS);
      assert before[..MAX_CHUNKS] == target[..MAX_CHUNKS];
    }
  }

  /** An embedding succeeds exactly when the source reads, can be rewritten, and the result fits the size field. */
  lemma EmbedOkIff(bytes: seq<Byte>, xmp: seq<Byte>, width: nat, height: nat)
    ensures Embed(bytes, xmp, width, height).Ok? <==>
      && Parse(bytes).Ok? && Rewrite(Parse(bytes).value, xmp, width, height).Ok?
      && |RenderAll(Rewrite(Parse(bytes).value, xmp, width, height).value)| <= 0xFFFF_FFFB
  {
    hide Parse, Rewrite, RenderAll;
  }

  /** The packet is that of the first XMP chunk that can be reached, when it has 1 to 57344 bytes. */
  lemma ExtractIff(bytes: seq<Byte>, xmp: seq<Byte>)
    ensures Extract(bytes) == Ok(Some(xmp)) <==>
      FirstXmp(WalkContainer(bytes).chunks) == Some(xmp) && 1 <= |xmp| <= 57344
    ensures Extract(bytes) == Ok(None) <==>
      FirstXmp(WalkContainer(bytes).chunks) == None && WalkContainer(bytes).fault == None
  {
    hide WalkContainer, FirstXmp;
  }

  /** A written chunk has an even number of bytes, the last of them zero when the data has an odd number. */
  lemma PaddedWithZero(c: Chunk)
    ensures var s := RenderChunk(c); |s| % 2 == 0 && (|c.data| % 2 == 1 ==> s[|s| - 1] == 0)
  {
    hide LittleEndian32;
    var pad: seq<Byte> := if |c.data| % 2 == 1 then [0] else [];
    var s := RenderChunk(c);
    assert s == c.kind + LittleEndian32(|c.data|) + c.data + pad;
    hide RenderChunk;
    assert |s| == 8 + |c.data| + |pad|;
  }

  /** Rewriting what is already rewritten only drops the record at its end. */
  lemma RewriteAgain(source: seq<Chunk>, first: seq<Byte>, second: seq<Byte>, width: nat, height: nat)
    requires Rewrite(source, first, width, height).Ok?
    ensures Rewrite(Rewrite(source, first, width, height).value, second, width, height)
      == Rewrite(source, second, width, height)
  {
    hide NewHead, RewriteAll;
    var target := Rewrite(source, first, width, height).value;
    RewriteMeaning(source, first, width, height);
    RewriteAllMeaning(source);
    NewHeadMeaning(source, width, height);
    RewriteShape(source, first, width, height);
    var kept, head, last: seq<Chunk> := RewriteAll(source), NewHead(source, width, height), [RawChunk(XMP, first)];
    RewriteConcat(head, kept);
    RewriteConcat(head + kept, last);
    RewriteOneXmp(first);
    assert RewriteAll(target) == head + kept;
    if |second| < U32_LIMIT {
      var none: seq<Chunk> := [];
      assert none + (head + kept) == head + kept;
      assert Rewrite(target, second, width, height) == Ok(head + kept + [RawChunk(XMP, second)]);
      assert Rewrite(source, second, width, height).Ok?;
      RewriteShape(source, second, width, height);
    }
  }

  lemma RewriteOneXmp(xmp: seq<Byte>)
    requires |xmp| < U32_LIMIT
    ensures RewriteAll([RawChunk(XMP, xmp)]) == []
  {
  }

  /**
   * Re-embedding is embedding once, whatever the outcome, while the first result is within the cap, and refused past
   * it.
   */
  lemma EmbedTwice(bytes: seq<Byte>, first: seq<Byte>, second: seq<Byte>, width: nat, height: nat)
    requires Embed(bytes, first, width, height).Ok?
    ensures var output := Embed(bytes, first, width, height).value;
      var target := Rewrite(Parse(bytes).value, first, width, height).value;
      Embed(output, second, width, height) ==
        if |target| <= MAX_CHUNKS then Embed(bytes, second, width, height) else Err(TooManyChunks)
  {
    hide Rewrite, Parse;
    EmbedRoundTrip(bytes, first, width, height);
    RewriteAgain(Parse(bytes).value, first, second, width, height);
  }

  lemma RewrittenFlagged(c: Chunk)
    requires c.kind == VP8X && |c.data| == 10 && Bit(c.data[0], 0x04)
    ensures Rewritten(c) == [c]
  {
    assert c.data[0 := c.data[0]] == c.data;
  }

  lemma {:induction false} RewriteConcat(left: seq<Chunk>, right: seq<Chunk>)
    ensures RewriteAll(left + right) == RewriteAll(left) + RewriteAll(right)
  {
    if left == [] {
      assert left + right == right;
    } else {
      assert (left + right)[1..] == left[1..] + right;
      RewriteConcat(left[1..], right);
    }
  }

  const EMPTY_CHUNK: Chunk := RawChunk([0x4A, 0x55, 0x4E, 0x4B], [])

  function Repeated(n: nat): (r: seq<Chunk>)
    ensures |r| == n
  {
    if n == 0 then [] else [EMPTY_CHUNK] + Repeated(n - 1)
  }

  lemma {:induction false} RepeatedMeaning(n: nat)
    ensures |RenderAll(Repeated(n))| == 8 * n && Payload(Repeated(n)) == Repeated(n) == RewriteAll(Repeated(n))
    ensures !HasVp8x(Repeated(n)) && Count(Repeated(n), XMP) == 0
  {
    if n > 0 {
      RepeatedMeaning(n - 1);
      var rest := Repeated(n - 1);
      assert Repeated(n) == [EMPTY_CHUNK] + rest && Repeated(n)[1..] == rest;
      hide Repeated;
      assert Rewritten(EMPTY_CHUNK) == [EMPTY_CHUNK] && |RenderChunk(EMPTY_CHUNK)| == 8;
      hide Rewritten, RenderChunk;
    }
  }

  /** A readable source of `n` chunks takes the record; at the cap the result cannot give it back. */
  lemma EmbeddingCanPassTheCap(n: nat, xmp: seq<Byte>)
    requires n <= MAX_CHUNKS && Bounded(xmp)
    ensures |RenderAll(Repeated(n))| == 8 * n
    ensures var bytes := Container(RenderAll(Repeated(n)));
      && Parse(bytes) == Ok(Repeated(n))
      && Embed(bytes, xmp, 1, 1).Ok?
      && Extract(Embed(bytes, xmp, 1, 1).value) == (if n + 2 <= MAX_CHUNKS then Ok(Some(xmp)) else Err(TooManyChunks))
  {
    hide RenderAll, Container, WalkContainer, RewriteAll, NewHead, AllKept, Describes, Flagged, Payload, NotXmp;
    var source, last: seq<Chunk> := Repeated(n), [RawChunk(XMP, xmp)];
    RepeatedMeaning(n);
    ContainerReads(source);
    var head := NewHead(source, 1, 1);
    assert Rewrite(source, xmp, 1, 1).Ok?;
    RewriteShape(source, xmp, 1, 1);
    assert |RenderAll(head + source + last)| <= 18 + 8 * n + 9 + |xmp| by {
      RenderAllConcat(head + source, last);
      RenderAllConcat(head, source);
      RenderedSize(source, xmp);
    }
    RewriteMeaning(source, xmp, 1, 1);
    EmbedRoundTrip(Container(RenderAll(source)), xmp, 1, 1);
  }

  lemma RenderedSize(source: seq<Chunk>, xmp: seq<Byte>)
    requires |xmp| < U32_LIMIT
    ensures |RenderAll(NewHead(source, 1, 1))| <= 18 && |RenderAll([RawChunk(XMP, xmp)])| <= 9 + |xmp|
  {
    var head := NewHead(source, 1, 1);
    assert head != [] ==> head[1..] == [];
    assert [RawChunk(XMP, xmp)][1..] == [];
  }
}
